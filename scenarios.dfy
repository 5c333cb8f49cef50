/**
 * Client-side scenarios that use only the interner's contracts: the
 * intern-then-look-up round trip of the unit test, and what happens to a
 * `.time` interner across `removeAll`.
 */
module Scenarios {
  import opened Wrappers
  import opened Symbols
  import opened Interners

  /**
   * The unit test's shape: distinct objects, as many as the symbol width
   * allows, interned one after another into a fresh interner; the i-th gets
   * `Symbol(i)`, the count is their number, and in either mode looking
   * `Symbol(i)` up afterwards gives the i-th object back.
   */
  method InternDistinctThenLookUp<Object(==)>(mode: EfficiencyMode, maxIntern: nat, items: seq<Object>)
    returns (symbols: seq<Symbol>, count: nat, found: seq<Option<Object>>)
    requires |items| <= maxIntern + 1
    requires forall i, j :: 0 <= i < j < |items| ==> items[i] != items[j]
    ensures |symbols| == |items| && forall i :: 0 <= i < |items| ==> symbols[i] == Symbol(i)
    ensures count == |items|
    ensures |found| == |items| && forall i :: 0 <= i < |items| ==> found[i] == Some(items[i])
  {
    var interner := new Interner<Object>(mode, maxIntern);
    symbols := [];
    var k := 0;
    while k < |items|
      invariant 0 <= k <= |items|
      invariant interner.Valid() && interner.maxIntern == maxIntern
      invariant interner.objects == items[..k]
      invariant |symbols| == k && forall i :: 0 <= i < k ==> symbols[i] == Symbol(i)
    {
      assert items[k] !in interner.dictionary by {
        forall o | o in interner.dictionary
          ensures o != items[k]
        {
          var j := interner.dictionary[o].rawValue;
          assert j < k && o == items[j];
        }
      }
      var s := interner.Interned(items[k]);
      symbols := symbols + [s];
      k := k + 1;
    }
    assert interner.objects == items;
    count := interner.Count();
    found := [];
    k := 0;
    while k < |items|
      invariant 0 <= k <= |items|
      invariant interner.Valid() && interner.objects == items
      invariant |found| == k && forall i :: 0 <= i < k ==> found[i] == Some(items[i])
    {
      var r := interner.Lookup(Symbol(k));
      found := found + [r];
      k := k + 1;
    }
  }

  /**
   * Interning 10, 20, 10, 30 into an interner with 8-bit symbols yields
   * symbols 0, 1, 0, 2 in either mode; both modes then count 3 objects,
   * look symbol 1 up as 20, and find nothing for symbol 5.
   */
  method InternAndLookUp(mode: EfficiencyMode) returns (symbols: seq<Symbol>, count: nat, second: Option<int>, unissued: Option<int>)
    ensures symbols == [Symbol(0), Symbol(1), Symbol(0), Symbol(2)]
    ensures count == 3
    ensures second == Some(20)
    ensures unissued == None
  {
    var interner := new Interner<int>(mode, 255);
    var a := interner.Interned(10);
    var b := interner.Interned(20);
    var c := interner.Interned(10);
    var d := interner.Interned(30);
    symbols := [a, b, c, d];
    count := interner.Count();
    second := interner.Lookup(Symbol(1));
    unissued := interner.Lookup(Symbol(5));
  }

  /**
   * As written, `removeAll` leaves the reverse array of a `.time` interner in
   * place: after it, the next new object gets symbol 0 again, and looking that
   * symbol up returns the object interned before the reset, not the new one.
   */
  method StaleLookupAfterRemoveAll<Object(==)>(before: Object, after: Object) returns (symbol: Symbol, found: Option<Object>)
    requires before != after
    ensures symbol == Symbol(0)
    ensures found == Some(before) && found != Some(after)
  {
    var interner := new Interner<Object>(Time, 255);
    var _ := interner.Interned(before);
    interner.RemoveAll(false);
    symbol := interner.Interned(after);
    found := interner.Lookup(symbol);
  }

  /**
   * With both structures cleared, the same sequence of calls looks the new
   * symbol up as the new object.
   */
  method FreshLookupAfterClearAll<Object(==)>(before: Object, after: Object) returns (symbol: Symbol, found: Option<Object>)
    ensures symbol == Symbol(0)
    ensures found == Some(after)
  {
    var interner := new Interner<Object>(Time, 255);
    var _ := interner.Interned(before);
    interner.ClearAll(false);
    symbol := interner.Interned(after);
    found := interner.Lookup(symbol);
  }
}
