/** The diff cleaning of the source diff drawer (frontend/src/components/SourceDiffDrawer.tsx): a job diff,
    as the JSON value the UI received, is stripped of empty values and of `Type: "None"` markers before it
    is shown. JavaScript values are the datatype Js; an object is its list of entries in property order
    (keys distinct, as in any JavaScript object), a number an integer. */
module DiffCleaning {
  import opened Wrappers
  import opened Text

  datatype Js =
    | Undefined
    | Null
    | Bool(b: bool)
    | Num(n: int)
    | Str(s: string)
    | Arr(items: seq<Js>)
    | Obj(entries: seq<(string, Js)>)

  /** The TypeError `Object.entries` throws on null or undefined. */
  datatype JsError = TypeError

  /** `typeof v == 'object'`: objects, arrays, and null. */
  predicate IsObject(v: Js) {
    v.Null? || v.Arr? || v.Obj?
  }

  /** `v == null` in JavaScript's loose equality: null or undefined. */
  predicate IsEmpty(v: Js) {
    v.Null? || v.Undefined?
  }

  /** The two entry filters: removeEmpty drops empty values, removeTypeNone drops the pair `Type: "None"`. */
  datatype Drop = DropEmpty | DropTypeNone

  predicate Keeps(d: Drop, key: string, value: Js) {
    match d
    case DropEmpty => !IsEmpty(value)
    case DropTypeNone => !(key == "Type" && value == Str("None"))
  }

  /** The entries a filter keeps, in order. */
  function KeptEntries(es: seq<(string, Js)>, d: Drop): (r: seq<(string, Js)>)
    ensures |r| <= |es|
    ensures forall i | 0 <= i < |r| :: r[i] in es && Keeps(d, r[i].0, r[i].1)
    ensures forall i | 0 <= i < |es| && Keeps(d, es[i].0, es[i].1) :: es[i] in r
    ensures (forall i | 0 <= i < |es| :: Keeps(d, es[i].0, es[i].1)) ==> r == es
    decreases |es|
  {
    if es == [] then []
    else if Keeps(d, es[0].0, es[0].1) then [es[0]] + KeptEntries(es[1..], d)
    else KeptEntries(es[1..], d)
  }

  /** The indices from `from` on of the array items a filter keeps, keyed by their index, in order. */
  function KeptIndices(items: seq<Js>, d: Drop, from: nat): (r: seq<nat>)
    requires from <= |items|
    ensures forall j | 0 <= j < |r| :: from <= r[j] < |items| && Keeps(d, NatToString(r[j]), items[r[j]])
    ensures forall j, k | 0 <= j < k < |r| :: r[j] < r[k]
    decreases |items| - from
  {
    if from == |items| then []
    else if Keeps(d, NatToString(from), items[from]) then [from] + KeptIndices(items, d, from + 1)
    else KeptIndices(items, d, from + 1)
  }

  /** The positions from `from` on of the entries a filter keeps, in increasing order: a reference for
      KeptEntries. */
  function KeptPositions(es: seq<(string, Js)>, d: Drop, from: nat): (r: seq<nat>)
    requires from <= |es|
    ensures forall j | 0 <= j < |r| :: from <= r[j] < |es| && Keeps(d, es[r[j]].0, es[r[j]].1)
    ensures forall j, k | 0 <= j < k < |r| :: r[j] < r[k]
    ensures forall i | from <= i < |es| && Keeps(d, es[i].0, es[i].1) :: i in r
    decreases |es| - from
  {
    if from == |es| then []
    else if Keeps(d, es[from].0, es[from].1) then [from] + KeptPositions(es, d, from + 1)
    else KeptPositions(es, d, from + 1)
  }

  /** `Object.entries` of a string: one entry per character, keyed by its index. */
  function CharEntries(s: string): seq<(string, Js)> {
    seq(|s|, i requires 0 <= i < |s| => (NatToString(i), Str([s[i]])))
  }

  /** `Object.entries` of an array: one entry per item, keyed by its index. */
  function ItemEntries(items: seq<Js>): seq<(string, Js)> {
    seq(|items|, i requires 0 <= i < |items| => (NatToString(i), items[i]))
  }

  /** `Object.entries(v)` for a value that is not null or undefined: an object's own entries, an array's
      items and a string's characters keyed by index, and nothing for a number or a boolean. */
  function Entries(v: Js): seq<(string, Js)> {
    match v
    case Obj(es) => es
    case Arr(items) => ItemEntries(items)
    case Str(s) => CharEntries(s)
    case _ => []
  }

  /** The body shared by removeEmpty and removeTypeNone: the entries of `v` the filter keeps, each object
      value cleaned recursively, rebuilt into an object with `Object.fromEntries`. Arrays therefore come
      out as objects keyed by index. A number, a boolean, and null (reachable only where the TypeScript code throws,
      see RemoveTypeNone) have no entries. */
  function Rebuild(v: Js, d: Drop): (r: Js)
    ensures r.Obj?
    decreases v
  {
    match v
    case Obj(es) =>
      var kept := KeptEntries(es, d);
      Obj(seq(|kept|, i requires 0 <= i < |kept| =>
        (kept[i].0, if IsObject(kept[i].1) then Rebuild(kept[i].1, d) else kept[i].1)))
    case Arr(items) =>
      var idx := KeptIndices(items, d, 0);
      Obj(seq(|idx|, j requires 0 <= j < |idx| =>
        (NatToString(idx[j]), if IsObject(items[idx[j]]) then Rebuild(items[idx[j]], d) else items[idx[j]])))
    case Str(s) => Obj(KeptEntries(CharEntries(s), d))
    case _ => Obj([])
  }

  /** Some null is reachable from `v` through object values and array items. */
  predicate HasNull(v: Js)
    decreases v
  {
    match v
    case Null => true
    case Obj(es) => exists i | 0 <= i < |es| :: HasNull(es[i].1)
    case Arr(items) => exists i | 0 <= i < |items| :: HasNull(items[i])
    case _ => false
  }

  /** removeEmpty: throws on null or undefined; otherwise the rebuilt object without empty values. */
  function RemoveEmpty(data: Js): (r: Result<Js, JsError>)
    ensures r.Failure? <==> IsEmpty(data)
  {
    if IsEmpty(data) then Failure(TypeError) else Success(Rebuild(data, DropEmpty))
  }

  /** removeTypeNone: the filter keeps null values and recurses into them, so any reachable null, like an
      undefined argument, throws. */
  function RemoveTypeNone(data: Js): (r: Result<Js, JsError>)
    ensures r.Failure? <==> data.Undefined? || HasNull(data)
  {
    if data.Undefined? || HasNull(data) then Failure(TypeError) else Success(Rebuild(data, DropTypeNone))
  }

  /** The body of removeUndefinedElements: undefined items and undefined-valued entries are dropped at
      every depth, arrays stay arrays, and primitives are returned as they are. Null, where the TypeScript code
      throws (see RemoveUndefinedElements), is returned as it is. */
  function DropUndefined(v: Js): (r: Js)
    ensures v.Arr? <==> r.Arr?
    ensures v.Obj? <==> r.Obj?
    ensures !v.Arr? && !v.Obj? ==> r == v
    decreases v
  {
    match v
    case Arr(items) =>
      var kept := KeptItems(items);
      Arr(seq(|kept|, i requires 0 <= i < |kept| => DropUndefined(kept[i])))
    case Obj(es) =>
      var kept := DefinedEntries(es);
      Obj(seq(|kept|, i requires 0 <= i < |kept| => (kept[i].0, DropUndefined(kept[i].1))))
    case _ => v
  }

  /** The array items that are not undefined, in order. */
  function KeptItems(items: seq<Js>): (r: seq<Js>)
    ensures forall i | 0 <= i < |r| :: r[i] in items && !r[i].Undefined?
    ensures forall i | 0 <= i < |items| && !items[i].Undefined? :: items[i] in r
    ensures (forall i | 0 <= i < |items| :: !items[i].Undefined?) ==> r == items
    decreases |items|
  {
    if items == [] then []
    else if items[0].Undefined? then KeptItems(items[1..])
    else [items[0]] + KeptItems(items[1..])
  }

  /** The entries whose value is not undefined, in order. */
  function DefinedEntries(es: seq<(string, Js)>): (r: seq<(string, Js)>)
    ensures forall i | 0 <= i < |r| :: r[i] in es && !r[i].1.Undefined?
    ensures forall i | 0 <= i < |es| && !es[i].1.Undefined? :: es[i] in r
    ensures (forall i | 0 <= i < |es| :: !es[i].1.Undefined?) ==> r == es
    decreases |es|
  {
    if es == [] then []
    else if es[0].1.Undefined? then DefinedEntries(es[1..])
    else [es[0]] + DefinedEntries(es[1..])
  }

  /** removeUndefinedElements: `Object.entries(null)` throws wherever a null is reached. */
  function RemoveUndefinedElements(data: Js): (r: Result<Js, JsError>)
    ensures r.Failure? <==> HasNull(data)
    ensures r.Success? && !data.Arr? && !data.Obj? ==> r.value == data
  {
    if HasNull(data) then Failure(TypeError) else Success(DropUndefined(data))
  }

  /** cleanDiff: throws exactly on a null or undefined diff, since removeEmpty's result holds no null for
      the later passes to meet. */
  function CleanDiff(diff: Js): (r: Result<Js, JsError>)
    ensures r.Failure? <==> IsEmpty(diff)
  {
    var a :- RemoveEmpty(diff);
    RebuildShape(diff, DropEmpty);
    RebuiltHasNoNull(a, DropEmpty);
    // removeTypeNone cannot throw on what removeEmpty returns.
    var b := RemoveTypeNone(a).value;
    RebuildShape(a, DropTypeNone);
    RebuiltHasNoNull(b, DropTypeNone);
    RemoveUndefinedElements(b)
  }

  // ---------------------------------------------------------------------------------------------
  // Properties.

  /** Every entry below `v`, object entries and array items keyed by index alike, is kept by `d`. */
  predicate KeptDeep(v: Js, d: Drop)
    decreases v
  {
    match v
    case Obj(es) => forall i | 0 <= i < |es| :: Keeps(d, es[i].0, es[i].1) && KeptDeep(es[i].1, d)
    case Arr(items) => forall i | 0 <= i < |items| :: Keeps(d, NatToString(i), items[i]) && KeptDeep(items[i], d)
    case _ => true
  }

  /** No undefined value below `v`. */
  predicate NoUndefined(v: Js)
    decreases v
  {
    match v
    case Obj(es) => forall i | 0 <= i < |es| :: !es[i].1.Undefined? && NoUndefined(es[i].1)
    case Arr(items) => forall i | 0 <= i < |items| :: !items[i].Undefined? && NoUndefined(items[i])
    case _ => true
  }

  /** The shape Rebuild produces: an object whose entries the filter keeps and whose object-typed values
      are again such objects (no array and no null is left). */
  predicate Rebuilt(v: Js, d: Drop)
    decreases v
  {
    && v.Obj?
    && forall i | 0 <= i < |v.entries| ::
      && Keeps(d, v.entries[i].0, v.entries[i].1)
      && (IsObject(v.entries[i].1) ==> Rebuilt(v.entries[i].1, d))
  }

  /** Rebuild always yields the rebuilt shape. */
  lemma {:induction false} RebuildShape(v: Js, d: Drop)
    ensures Rebuilt(Rebuild(v, d), d)
    decreases v
  {
    match v
    case Obj(es) =>
      var kept := KeptEntries(es, d);
      forall i | 0 <= i < |kept| && IsObject(kept[i].1) ensures Rebuilt(Rebuild(kept[i].1, d), d) {
        RebuildShape(kept[i].1, d);
      }
    case Arr(items) =>
      var idx := KeptIndices(items, d, 0);
      forall j | 0 <= j < |idx| && IsObject(items[idx[j]]) ensures Rebuilt(Rebuild(items[idx[j]], d), d) {
        RebuildShape(items[idx[j]], d);
      }
    case Str(s) =>
    case _ =>
  }

  /** Rebuild leaves the rebuilt shape as it is. */
  lemma {:induction false} RebuildFixes(v: Js, d: Drop)
    requires Rebuilt(v, d)
    ensures Rebuild(v, d) == v
    decreases v
  {
    var es := v.entries;
    assert KeptEntries(es, d) == es;
    forall i | 0 <= i < |es| && IsObject(es[i].1) ensures Rebuild(es[i].1, d) == es[i].1 {
      RebuildFixes(es[i].1, d);
    }
    assert Rebuild(v, d).entries == es;
  }

  /** The rebuilt shape holds the filter's property at every depth. */
  lemma {:induction false} RebuiltIsKeptDeep(v: Js, d: Drop)
    requires Rebuilt(v, d)
    ensures KeptDeep(v, d)
    decreases v
  {
    forall i | 0 <= i < |v.entries| ensures KeptDeep(v.entries[i].1, d) {
      if IsObject(v.entries[i].1) {
        RebuiltIsKeptDeep(v.entries[i].1, d);
      }
    }
  }

  /** `r` is what a filter makes of the entries `es`: the entries it keeps, in order, under their own keys,
      each object value cleaned again by the filter and every other value as it was. */
  predicate RebuiltFrom(r: seq<(string, Js)>, es: seq<(string, Js)>, d: Drop) {
    var pos := KeptPositions(es, d, 0);
    && |r| == |pos|
    && forall j | 0 <= j < |pos| ::
      && r[j].0 == es[pos[j]].0
      && r[j].1 == if IsObject(es[pos[j]].1) then Rebuild(es[pos[j]].1, d) else es[pos[j]].1
  }

  /** Rebuild makes of a value exactly what the filter makes of its `Object.entries`. */
  lemma RebuildValues(v: Js, d: Drop)
    ensures RebuiltFrom(Rebuild(v, d).entries, Entries(v), d)
  {
    match v
    case Obj(es) => RebuildObjectValues(es, d);
    case Arr(items) => RebuildArrayValues(items, d);
    case Str(s) => RebuildStringValues(s, d);
    case _ =>
  }

  lemma RebuildObjectValues(es: seq<(string, Js)>, d: Drop)
    ensures RebuiltFrom(Rebuild(Obj(es), d).entries, es, d)
  {
    KeptEntriesInOrder(es, d, 0);
    assert es[0..] == es;
  }

  lemma RebuildArrayValues(items: seq<Js>, d: Drop)
    ensures RebuiltFrom(Rebuild(Arr(items), d).entries, ItemEntries(items), d)
  {
    IndicesArePositions(items, d, 0);
  }

  lemma RebuildStringValues(s: string, d: Drop)
    ensures RebuiltFrom(Rebuild(Str(s), d).entries, CharEntries(s), d)
  {
    var es := CharEntries(s);
    KeptEntriesInOrder(es, d, 0);
    assert es[0..] == es;
    var kept, pos := KeptEntries(es, d), KeptPositions(es, d, 0);
    assert Rebuild(Str(s), d).entries == kept;
    forall j | 0 <= j < |pos| ensures kept[j] == es[pos[j]] && !IsObject(es[pos[j]].1) {
      assert es[pos[j]].1 == Str([s[pos[j]]]);
    }
  }

  /** The kept entries of a string are single characters: neither objects, which Rebuild would clean, nor
      empty. */
  lemma CharsAreNotObjects(s: string, d: Drop)
    ensures forall j | 0 <= j < |KeptEntries(CharEntries(s), d)| ::
      KeptEntries(CharEntries(s), d)[j].1.Str? && |KeptEntries(CharEntries(s), d)[j].1.s| == 1
  {
    var kept := KeptEntries(CharEntries(s), d);
    forall j | 0 <= j < |kept| ensures kept[j].1.Str? && |kept[j].1.s| == 1 {
      var i :| 0 <= i < |CharEntries(s)| && CharEntries(s)[i] == kept[j];
    }
  }

  /** The array indices a filter keeps are the positions it keeps of the array's entries. */
  lemma {:induction false} IndicesArePositions(items: seq<Js>, d: Drop, from: nat)
    requires from <= |items|
    ensures KeptIndices(items, d, from) == KeptPositions(ItemEntries(items), d, from)
    decreases |items| - from
  {
    if from < |items| {
      IndicesArePositions(items, d, from + 1);
      assert ItemEntries(items)[from] == (NatToString(from), items[from]);
    }
  }

  /** removeEmpty succeeds exactly on a value that is not null or undefined, leaves no null or undefined
      value at any depth, and is idempotent. */
  lemma RemoveEmptyContract(data: Js)
    ensures RemoveEmpty(data).Success? ==> KeptDeep(RemoveEmpty(data).value, DropEmpty)
    ensures RemoveEmpty(data).Success? ==> RemoveEmpty(RemoveEmpty(data).value) == RemoveEmpty(data)
    // On an object, every key with a value survives, in order.
    ensures data.Obj? ==> Keys(RemoveEmpty(data).value.entries) == KeysWithValues(data.entries)
    // The kept entries keep their values, object values cleaned in turn.
    ensures RemoveEmpty(data).Success? ==> RebuiltFrom(RemoveEmpty(data).value.entries, Entries(data), DropEmpty)
  {
    RebuildValues(data, DropEmpty);
    if data.Obj? {
      RemoveEmptyKeys(data.entries);
    }
    if !IsEmpty(data) {
      RebuildShape(data, DropEmpty);
      RebuiltIsKeptDeep(Rebuild(data, DropEmpty), DropEmpty);
      RebuildFixes(Rebuild(data, DropEmpty), DropEmpty);
    }
  }

  /** removeTypeNone leaves no `Type: "None"` pair at any depth and is idempotent. */
  lemma RemoveTypeNoneContract(data: Js)
    ensures RemoveTypeNone(data).Success? ==> KeptDeep(RemoveTypeNone(data).value, DropTypeNone)
    ensures RemoveTypeNone(data).Success? ==> RemoveTypeNone(RemoveTypeNone(data).value) == RemoveTypeNone(data)
    // The kept entries keep their values, object values cleaned in turn.
    ensures RemoveTypeNone(data).Success? ==> RebuiltFrom(RemoveTypeNone(data).value.entries, Entries(data), DropTypeNone)
  {
    RebuildValues(data, DropTypeNone);
    if !data.Undefined? && !HasNull(data) {
      var r := Rebuild(data, DropTypeNone);
      RebuildShape(data, DropTypeNone);
      RebuiltIsKeptDeep(r, DropTypeNone);
      RebuildFixes(r, DropTypeNone);
      RebuiltHasNoNull(r, DropTypeNone);
    }
  }

  /** The rebuilt shape reaches no null. */
  lemma {:induction false} RebuiltHasNoNull(v: Js, d: Drop)
    requires Rebuilt(v, d)
    ensures !HasNull(v)
    decreases v
  {
    forall i | 0 <= i < |v.entries| ensures !HasNull(v.entries[i].1) {
      if IsObject(v.entries[i].1) {
        RebuiltHasNoNull(v.entries[i].1, d);
      }
    }
  }

  /** The keys of an object's entries, in order. */
  function Keys(es: seq<(string, Js)>): seq<string> {
    seq(|es|, i requires 0 <= i < |es| => es[i].0)
  }

  /** The keys of an object without the `Type` key whose value is "None": the reference for what
      removeTypeNone keeps. */
  function KeysWithoutTypeNone(es: seq<(string, Js)>): seq<string>
    decreases |es|
  {
    if es == [] then []
    else if es[0].0 == "Type" && es[0].1 == Str("None") then KeysWithoutTypeNone(es[1..])
    else [es[0].0] + KeysWithoutTypeNone(es[1..])
  }

  lemma {:induction false} KeptKeys(es: seq<(string, Js)>)
    ensures Keys(KeptEntries(es, DropTypeNone)) == KeysWithoutTypeNone(es)
    decreases |es|
  {
    if es != [] {
      KeptKeys(es[1..]);
      var rest := KeptEntries(es[1..], DropTypeNone);
      assert Keys([es[0]] + rest) == [es[0].0] + Keys(rest);
    }
  }

  /** The keys of an object whose values are neither null nor undefined: the reference for what
      removeEmpty keeps. */
  function KeysWithValues(es: seq<(string, Js)>): seq<string>
    decreases |es|
  {
    if es == [] then []
    else if es[0].1.Null? || es[0].1.Undefined? then KeysWithValues(es[1..])
    else [es[0].0] + KeysWithValues(es[1..])
  }

  lemma {:induction false} KeptKeysWithValues(es: seq<(string, Js)>)
    ensures Keys(KeptEntries(es, DropEmpty)) == KeysWithValues(es)
    decreases |es|
  {
    if es != [] {
      KeptKeysWithValues(es[1..]);
      var rest := KeptEntries(es[1..], DropEmpty);
      assert Keys([es[0]] + rest) == [es[0].0] + Keys(rest);
    }
  }

  /** On an object, removeEmpty keeps exactly the keys whose values are neither null nor undefined, in
      order. */
  lemma RemoveEmptyKeys(es: seq<(string, Js)>)
    ensures RemoveEmpty(Obj(es)).Success?
    ensures Keys(RemoveEmpty(Obj(es)).value.entries) == KeysWithValues(es)
  {
    KeptKeysWithValues(es);
    var kept := KeptEntries(es, DropEmpty);
    assert Keys(RemoveEmpty(Obj(es)).value.entries) == Keys(kept);
  }

  /** One position of the filter: the entry at `from` is kept or dropped, then the rest is filtered. */
  lemma KeptStep(es: seq<(string, Js)>, d: Drop, from: nat)
    requires from < |es|
    ensures KeptEntries(es[from..], d) ==
      if Keeps(d, es[from].0, es[from].1) then [es[from]] + KeptEntries(es[from + 1..], d) else KeptEntries(es[from + 1..], d)
    ensures KeptPositions(es, d, from) ==
      if Keeps(d, es[from].0, es[from].1) then [from] + KeptPositions(es, d, from + 1) else KeptPositions(es, d, from + 1)
  {
    assert es[from..][1..] == es[from + 1..];
  }

  /** The filter keeps the entries at the kept positions, in order and each once. */
  lemma {:induction false} KeptEntriesInOrder(es: seq<(string, Js)>, d: Drop, from: nat)
    requires from <= |es|
    ensures var pos := KeptPositions(es, d, from);
      |KeptEntries(es[from..], d)| == |pos| && forall j | 0 <= j < |pos| :: KeptEntries(es[from..], d)[j] == es[pos[j]]
    decreases |es| - from
  {
    if from < |es| {
      KeptEntriesInOrder(es, d, from + 1);
      KeptStep(es, d, from);
      var pos, rest := KeptPositions(es, d, from), KeptPositions(es, d, from + 1);
      var kept, keptRest := KeptEntries(es[from..], d), KeptEntries(es[from + 1..], d);
      if Keeps(d, es[from].0, es[from].1) {
        ConsAtPositions(es, from, keptRest, rest);
      }
    }
  }

  /** Entries at positions stay at positions when one more entry is put in front of both. */
  lemma ConsAtPositions(es: seq<(string, Js)>, from: nat, kept: seq<(string, Js)>, pos: seq<nat>)
    requires from < |es|
    requires |kept| == |pos| && forall j | 0 <= j < |pos| :: pos[j] < |es| && kept[j] == es[pos[j]]
    ensures var kept', pos' := [es[from]] + kept, [from] + pos;
      |kept'| == |pos'| && forall j | 0 <= j < |pos'| :: kept'[j] == es[pos'[j]]
  {
    var kept', pos' := [es[from]] + kept, [from] + pos;
    forall j | 0 <= j < |pos'| ensures kept'[j] == es[pos'[j]] {
      if j > 0 {
        assert kept'[j] == kept[j - 1] && pos'[j] == pos[j - 1];
      }
    }
  }

  /** On an object, removeTypeNone keeps every other key, in order. */
  lemma RemoveTypeNoneKeys(es: seq<(string, Js)>)
    requires !HasNull(Obj(es))
    ensures RemoveTypeNone(Obj(es)).Success?
    ensures Keys(RemoveTypeNone(Obj(es)).value.entries) == KeysWithoutTypeNone(es)
  {
    KeptKeys(es);
    var kept := KeptEntries(es, DropTypeNone);
    assert Keys(RemoveTypeNone(Obj(es)).value.entries) == Keys(kept);
  }

  /** An array without empty items comes out of removeEmpty as an object keyed "0", "1", … by index. */
  lemma RemoveEmptyIndexesArrays(items: seq<Js>)
    requires forall i | 0 <= i < |items| :: !IsEmpty(items[i])
    ensures RemoveEmpty(Arr(items)).Success?
    ensures Keys(RemoveEmpty(Arr(items)).value.entries) == seq(|items|, i requires 0 <= i < |items| => NatToString(i))
  {
    AllIndicesKept(items, 0);
    var idx := KeptIndices(items, DropEmpty, 0);
    assert forall j | 0 <= j < |idx| :: idx[j] == j;
  }

  /** With no empty item, every index from `from` on is kept. */
  lemma {:induction false} AllIndicesKept(items: seq<Js>, from: nat)
    requires from <= |items|
    requires forall i | 0 <= i < |items| :: !IsEmpty(items[i])
    ensures |KeptIndices(items, DropEmpty, from)| == |items| - from
    ensures forall j | 0 <= j < |items| - from :: KeptIndices(items, DropEmpty, from)[j] == from + j
    decreases |items| - from
  {
    if from < |items| {
      AllIndicesKept(items, from + 1);
    }
  }

  /** removeUndefinedElements leaves no undefined value at any depth. */
  lemma {:induction false} DropUndefinedContract(v: Js)
    ensures NoUndefined(DropUndefined(v))
    decreases v
  {
    match v
    case Arr(items) =>
      var kept := KeptItems(items);
      forall i | 0 <= i < |kept| ensures NoUndefined(DropUndefined(kept[i])) {
        DropUndefinedContract(kept[i]);
      }
    case Obj(es) =>
      var kept := DefinedEntries(es);
      forall i | 0 <= i < |kept| ensures NoUndefined(DropUndefined(kept[i].1)) {
        DropUndefinedContract(kept[i].1);
      }
    case _ =>
  }

  /** A value without undefined is left as it is by removeUndefinedElements. */
  lemma {:induction false} DropUndefinedFixes(v: Js)
    requires NoUndefined(v)
    ensures DropUndefined(v) == v
    decreases v
  {
    match v
    case Arr(items) =>
      forall i | 0 <= i < |items| ensures DropUndefined(items[i]) == items[i] {
        DropUndefinedFixes(items[i]);
      }
      assert DropUndefined(v).items == items;
    case Obj(es) =>
      forall i | 0 <= i < |es| ensures DropUndefined(es[i].1) == es[i].1 {
        DropUndefinedFixes(es[i].1);
      }
      assert DropUndefined(v).entries == es;
    case _ =>
  }

  /** A value free of empty values below it has no undefined below it. */
  lemma {:induction false} NoEmptyNoUndefined(v: Js)
    requires KeptDeep(v, DropEmpty)
    ensures NoUndefined(v)
    decreases v
  {
    match v
    case Obj(es) =>
      forall i | 0 <= i < |es| ensures NoUndefined(es[i].1) {
        NoEmptyNoUndefined(es[i].1);
      }
    case Arr(items) =>
      forall i | 0 <= i < |items| ensures NoUndefined(items[i]) {
        NoEmptyNoUndefined(items[i]);
      }
    case _ =>
  }

  /** Rebuild with either filter keeps a value free of empty values below it that way. */
  lemma {:induction false} RebuildKeepsNoEmpty(v: Js, d: Drop)
    requires v.Obj? || v.Arr? || v.Str?
    requires KeptDeep(v, DropEmpty)
    ensures KeptDeep(Rebuild(v, d), DropEmpty)
    decreases v
  {
    match v
    case Obj(es) =>
      var kept := KeptEntries(es, d);
      forall i | 0 <= i < |kept| && IsObject(kept[i].1) ensures KeptDeep(Rebuild(kept[i].1, d), DropEmpty) {
        var k :| 0 <= k < |es| && es[k] == kept[i];
        RebuildKeepsNoEmpty(kept[i].1, d);
      }
    case Arr(items) =>
      var idx := KeptIndices(items, d, 0);
      forall j | 0 <= j < |idx| && IsObject(items[idx[j]]) ensures KeptDeep(Rebuild(items[idx[j]], d), DropEmpty) {
        RebuildKeepsNoEmpty(items[idx[j]], d);
      }
    case Str(s) =>
      CharsAreNotObjects(s, d);
  }

  /** The keys of an object that the drawer shows: those whose value is neither null nor undefined, and
      not a `Type` whose value is "None"; the reference for what cleanDiff keeps of an object. */
  function KeysShown(es: seq<(string, Js)>): seq<string>
    decreases |es|
  {
    if es == [] then []
    else if IsEmpty(es[0].1) || (es[0].0 == "Type" && es[0].1 == Str("None")) then KeysShown(es[1..])
    else [es[0].0] + KeysShown(es[1..])
  }

  /** Entries with the same keys, whose values are "None" at the same places. */
  predicate SameKeysAndNones(m: seq<(string, Js)>, n: seq<(string, Js)>) {
    |m| == |n| && forall i | 0 <= i < |m| :: m[i].0 == n[i].0 && (m[i].1 == Str("None") <==> n[i].1 == Str("None"))
  }

  lemma {:induction false} KeysWithoutTypeNoneAgree(m: seq<(string, Js)>, n: seq<(string, Js)>)
    requires SameKeysAndNones(m, n)
    ensures KeysWithoutTypeNone(m) == KeysWithoutTypeNone(n)
    decreases |m|
  {
    if m != [] {
      assert SameKeysAndNones(m[1..], n[1..]) by {
        forall i | 0 <= i < |m| - 1 ensures m[1..][i] == m[i + 1] && n[1..][i] == n[i + 1] { }
      }
      KeysWithoutTypeNoneAgree(m[1..], n[1..]);
    }
  }

  lemma {:induction false} KeysShownAfterRemoveEmpty(es: seq<(string, Js)>)
    ensures KeysWithoutTypeNone(KeptEntries(es, DropEmpty)) == KeysShown(es)
    decreases |es|
  {
    if es != [] {
      KeysShownAfterRemoveEmpty(es[1..]);
      var rest := KeptEntries(es[1..], DropEmpty);
      if !IsEmpty(es[0].1) {
        assert KeptEntries(es, DropEmpty) == [es[0]] + rest;
        assert ([es[0]] + rest)[1..] == rest;
      }
    }
  }

  /** On an object, cleanDiff keeps exactly the keys whose value is neither null nor undefined, except a
      `Type` whose value is "None", in the original order. */
  lemma CleanDiffKeys(es: seq<(string, Js)>)
    ensures CleanDiff(Obj(es)).Success? && CleanDiff(Obj(es)).value.Obj?
    ensures Keys(CleanDiff(Obj(es)).value.entries) == KeysShown(es)
  {
    var kept := KeptEntries(es, DropEmpty);
    var a := Rebuild(Obj(es), DropEmpty);
    assert SameKeysAndNones(a.entries, kept);
    KeysWithoutTypeNoneAgree(a.entries, kept);
    KeysShownAfterRemoveEmpty(es);
    RebuildShape(Obj(es), DropEmpty);
    RebuiltHasNoNull(a, DropEmpty);
    RebuiltIsKeptDeep(a, DropEmpty);
    RemoveTypeNoneKeys(a.entries);
    var b := Rebuild(a, DropTypeNone);
    RebuildShape(a, DropTypeNone);
    RebuiltHasNoNull(b, DropTypeNone);
    RebuildKeepsNoEmpty(a, DropTypeNone);
    NoEmptyNoUndefined(b);
    DropUndefinedFixes(b);
    assert CleanDiff(Obj(es)) == Success(b);
  }

  /** cleanDiff fails exactly on a null or undefined diff; otherwise its result holds no null, no undefined,
      and no `Type: "None"` pair at any depth. */
  lemma CleanDiffContract(diff: Js)
    ensures CleanDiff(diff).Failure? <==> IsEmpty(diff)
    ensures CleanDiff(diff).Success? ==>
      && KeptDeep(CleanDiff(diff).value, DropEmpty)
      && KeptDeep(CleanDiff(diff).value, DropTypeNone)
    // On an object, every key with a value survives, in order, but a `Type` whose value is "None".
    ensures diff.Obj? ==> CleanDiff(diff).value.Obj? && Keys(CleanDiff(diff).value.entries) == KeysShown(diff.entries)
    // The last pass changes nothing: the values are those removeEmpty and then removeTypeNone leave.
    ensures !IsEmpty(diff) ==> RemoveTypeNone(RemoveEmpty(diff).value).Success? && CleanDiff(diff) == RemoveTypeNone(RemoveEmpty(diff).value)
  {
    if diff.Obj? {
      CleanDiffKeys(diff.entries);
    }
    if !IsEmpty(diff) {
      var a := Rebuild(diff, DropEmpty);
      RebuildShape(diff, DropEmpty);
      RebuiltHasNoNull(a, DropEmpty);
      RebuiltIsKeptDeep(a, DropEmpty);
      var b := Rebuild(a, DropTypeNone);
      RebuildShape(a, DropTypeNone);
      RebuiltIsKeptDeep(b, DropTypeNone);
      RebuiltHasNoNull(b, DropTypeNone);
      RebuildKeepsNoEmpty(a, DropTypeNone);
      NoEmptyNoUndefined(b);
      DropUndefinedFixes(b);
    }
  }
}
