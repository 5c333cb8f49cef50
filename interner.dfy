/**
 * The single-threaded object interner `Interner<Extern, Intern>`, together
 * with the default members of `InternerProtocol` it inherits (`intern`,
 * `lookupUnchecked`).
 *
 * The interner keeps a dictionary from objects to symbols and, in `.time`
 * mode only, a reverse array of objects indexed by raw value. The `Intern`
 * integer width is represented by its largest value, `maxIntern`
 * (255 for `UInt8`).
 */
module Interners {
  import opened Wrappers
  import opened Symbols

  /** The efficiency mode chosen at construction. */
  datatype EfficiencyMode = Time | Space

  class Interner<Object(==)> {
    /** `Intern.max`: the largest raw value the symbol width can represent. */
    const maxIntern: nat

    var dictionary: map<Object, Symbol>
    /** The source's `array`: present in `.time` mode only. */
    var reverseArray: Option<seq<Object>>

    /** The objects in the order they were first interned since the last reset (the abstract state). */
    ghost var objects: seq<Object>

    /**
     * The bijection invariant: the i-th object interned has symbol i, every
     * dictionary entry is one of those, raw values fit the symbol width, and
     * in `.time` mode the reverse array lists exactly those objects.
     */
    ghost predicate Valid()
      reads this
    {
      && |dictionary| == |objects|
      && |objects| <= maxIntern + 1
      && (forall i :: 0 <= i < |objects| ==> objects[i] in dictionary && dictionary[objects[i]] == Symbol(i))
      && (forall o :: o in dictionary ==> dictionary[o].rawValue < |objects| && objects[dictionary[o].rawValue] == o)
      && (reverseArray.Some? ==> reverseArray.value == objects)
    }

    /** The mode is recorded only by whether the reverse array exists. */
    function Mode(): EfficiencyMode
      reads this
    {
      if reverseArray.Some? then Time else Space
    }

    /** `init(efficientFor:)`: an empty interner; `[]` reverse array in `.time` mode, none in `.space` mode. */
    constructor (efficiencyMode: EfficiencyMode, maxIntern: nat)
      ensures Valid()
      ensures this.maxIntern == maxIntern
      ensures dictionary == map[] && objects == []
      ensures reverseArray == (if efficiencyMode == Time then Some([]) else None)
      ensures Mode() == efficiencyMode
      ensures Count() == 0 && IsEmpty()
    {
      this.maxIntern := maxIntern;
      dictionary := map[];
      objects := [];
      match efficiencyMode
      case Time => reverseArray := Some([]);
      case Space => reverseArray := None;
    }

    /** `==`: equal dictionaries and equal optional arrays. */
    function Equals(other: Interner<Object>): (equal: bool)
      requires other.maxIntern == maxIntern
      reads this, other
      ensures equal <==> dictionary == other.dictionary && reverseArray == other.reverseArray
      ensures equal ==> Count() == other.Count() && Mode() == other.Mode()
      ensures Mode() != other.Mode() ==> !equal
    {
      dictionary == other.dictionary && reverseArray == other.reverseArray
    }

    /** `count`: the number of unique symbols, which on a valid interner is the number of objects interned. */
    function Count(): (n: nat)
      reads this
      ensures Valid() ==> n == |objects|
    {
      |dictionary|
    }

    /** `isEmpty`: the number of unique symbols is zero. */
    function IsEmpty(): (empty: bool)
      reads this
      ensures empty <==> Count() == 0
    {
      dictionary == map[]
    }

    /** Whether `lookup` returns an object for `symbol` (in either mode). */
    predicate Resolvable(symbol: Symbol)
      reads this
    {
      match reverseArray
      case Some(a) => symbol.rawValue < |a|
      case None => symbol in dictionary.Values
    }

    /** On a valid interner, exactly the symbols issued so far resolve, in both modes. */
    lemma ResolvableIffIssued(symbol: Symbol)
      requires Valid()
      ensures Resolvable(symbol) <==> symbol.rawValue < Count()
    {
    }

    /** On a valid interner the symbols issued are exactly 0, 1, ..., count - 1. */
    lemma IssuedSymbolsAreDense()
      requires Valid()
      ensures dictionary.Values == set i | 0 <= i < Count() :: Symbol(i)
    {
    }

    /** On a valid interner distinct objects have distinct symbols. */
    lemma SymbolsAreUnique(a: Object, b: Object)
      requires Valid()
      requires a in dictionary && b in dictionary
      ensures dictionary[a] == dictionary[b] <==> a == b
    {
    }

    /** `expensiveLinearLookup`: the first dictionary entry (in the dictionary's unspecified order) whose symbol matches. */
    method ExpensiveLinearLookup(symbol: Symbol) returns (found: Option<Object>)
      ensures found.Some? ==> found.value in dictionary && dictionary[found.value] == symbol
      ensures found.None? <==> symbol !in dictionary.Values
    {
      var unvisited := dictionary.Keys;
      while unvisited != {}
        invariant unvisited <= dictionary.Keys
        invariant forall k :: k in dictionary && k !in unvisited ==> dictionary[k] != symbol
        decreases unvisited
      {
        var key :| key in unvisited;
        if dictionary[key] == symbol {
          return Some(key);
        }
        unvisited := unvisited - {key};
      }
      return None;
    }

    /**
     * `lookup`: indexes the reverse array in `.time` mode, scans the
     * dictionary in `.space` mode. On a valid interner both modes return the
     * object interned with that symbol, and nothing for a symbol not issued.
     */
    method Lookup(symbol: Symbol) returns (found: Option<Object>)
      ensures found.Some? <==> Resolvable(symbol)
      ensures reverseArray.Some? ==>
        found == if symbol.rawValue < |reverseArray.value| then Some(reverseArray.value[symbol.rawValue]) else None
      ensures reverseArray.None? && found.Some? ==> found.value in dictionary && dictionary[found.value] == symbol
      ensures Valid() ==>
        found == if symbol.rawValue < |objects| then Some(objects[symbol.rawValue]) else None
    {
      match reverseArray
      case None =>
        found := ExpensiveLinearLookup(symbol);
        if Valid() && symbol.rawValue < |objects| {
          assert dictionary[objects[symbol.rawValue]] == symbol;
        }
        if Valid() && found.Some? {
          assert found.value == objects[dictionary[found.value].rawValue];
        }
      case Some(a) =>
        if symbol.rawValue < |a| {
          found := Some(a[symbol.rawValue]);
        } else {
          found := None;
        }
    }

    /** `lookupUnchecked`: what `lookup` returns; a symbol that does not resolve is a fatal error. */
    method LookupUnchecked(symbol: Symbol) returns (item: Object)
      requires Resolvable(symbol)
      ensures reverseArray.Some? ==> symbol.rawValue < |reverseArray.value| && item == reverseArray.value[symbol.rawValue]
      ensures reverseArray.None? ==> item in dictionary && dictionary[item] == symbol
      ensures Valid() ==> symbol.rawValue < |objects| && item == objects[symbol.rawValue]
    {
      var found := Lookup(symbol);
      item := found.value;
    }

    /**
     * `interned`: the existing symbol of a known object, or a new symbol
     * whose raw value is the current count. A count that does not fit the
     * symbol width is a fatal error.
     */
    method Interned(item: Object) returns (symbol: Symbol)
      requires item in dictionary || |dictionary| <= maxIntern
      modifies this
      ensures item in old(dictionary) ==>
        && symbol == old(dictionary[item])
        && dictionary == old(dictionary) && reverseArray == old(reverseArray) && objects == old(objects)
      ensures item !in old(dictionary) ==>
        && symbol == Symbol(old(|dictionary|))
        && dictionary == old(dictionary)[item := symbol]
        && reverseArray == (if old(reverseArray).Some? then Some(old(reverseArray).value + [item]) else None)
        && objects == old(objects) + [item]
      ensures item in dictionary && dictionary[item] == symbol
      ensures Count() == old(Count()) + (if item in old(dictionary) then 0 else 1)
      ensures Mode() == old(Mode())
      ensures old(Valid()) ==> Valid() && symbol.rawValue < |objects| && objects[symbol.rawValue] == item
    {
      if item in dictionary {
        return dictionary[item];
      }
      var index := |dictionary|;
      symbol := Symbol(index);
      dictionary := dictionary[item := symbol];
      if reverseArray.Some? {
        reverseArray := Some(reverseArray.value + [item]);
      }
      objects := objects + [item];
    }

    /** `intern`: the state effect of `interned`, with the symbol discarded. */
    method Intern(item: Object)
      requires item in dictionary || |dictionary| <= maxIntern
      modifies this
      ensures item in old(dictionary) ==>
        dictionary == old(dictionary) && reverseArray == old(reverseArray) && objects == old(objects)
      ensures item !in old(dictionary) ==>
        && dictionary == old(dictionary)[item := Symbol(old(|dictionary|))]
        && reverseArray == (if old(reverseArray).Some? then Some(old(reverseArray).value + [item]) else None)
        && objects == old(objects) + [item]
      ensures old(Valid()) ==> Valid()
    {
      var _ := Interned(item);
    }

    /** `reserveCapacity`: an allocation hint only; nothing observable changes. */
    method ReserveCapacity(minimumCapacity: int)
      modifies this
      ensures dictionary == old(dictionary) && reverseArray == old(reverseArray) && objects == old(objects)
      ensures old(Valid()) ==> Valid()
    {
    }

    /**
     * `removeAll`: empties the dictionary only. The reverse array of a
     * `.time` interner is left as it was, so such an interner is no longer
     * valid unless its reverseArray was already empty.
     */
    method RemoveAll(keepCapacity: bool)
      modifies this
      ensures dictionary == map[] && objects == []
      ensures reverseArray == old(reverseArray)
      ensures Count() == 0 && IsEmpty()
      ensures Valid() <==> reverseArray.None? || reverseArray.value == []
    {
      dictionary := map[];
      objects := [];
    }

    /**
     * Clearing both structures, the evident intent of `removeAll`: the
     * interner is empty and valid again, in the same mode.
     */
    method ClearAll(keepCapacity: bool)
      modifies this
      ensures dictionary == map[] && objects == []
      ensures reverseArray == if old(reverseArray).Some? then Some([]) else None
      ensures Mode() == old(Mode())
      ensures Valid() && Count() == 0
    {
      dictionary := map[];
      objects := [];
      if reverseArray.Some? {
        reverseArray := Some([]);
      }
    }

    /**
     * `makeIterator`: the (object, symbol) pairs of the dictionary, each
     * exactly once, in the dictionary's unspecified order.
     */
    method MakeIterator() returns (pairs: seq<(Object, Symbol)>)
      ensures |pairs| == Count()
      ensures forall i :: 0 <= i < |pairs| ==> pairs[i].0 in dictionary && dictionary[pairs[i].0] == pairs[i].1
      ensures forall k :: k in dictionary ==> (k, dictionary[k]) in pairs
      ensures forall i, j :: 0 <= i < j < |pairs| ==> pairs[i].0 != pairs[j].0
      ensures Valid() ==> forall i :: 0 <= i < |objects| ==> (objects[i], Symbol(i)) in pairs
    {
      pairs := [];
      var unvisited := dictionary.Keys;
      while unvisited != {}
        invariant unvisited <= dictionary.Keys
        invariant |pairs| + |unvisited| == |dictionary.Keys|
        invariant forall i :: 0 <= i < |pairs| ==> pairs[i].0 in dictionary && pairs[i].0 !in unvisited && dictionary[pairs[i].0] == pairs[i].1
        invariant forall k :: k in dictionary && k !in unvisited ==> (k, dictionary[k]) in pairs
        invariant forall i, j :: 0 <= i < j < |pairs| ==> pairs[i].0 != pairs[j].0
        decreases unvisited
      {
        var key :| key in unvisited;
        pairs := pairs + [(key, dictionary[key])];
        unvisited := unvisited - {key};
      }
    }
  }
}
