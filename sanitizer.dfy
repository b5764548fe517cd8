/**
 * The configuration-tree sanitiser applied to a model file before it is written: in every
 * mapping, recursively, entries whose value is null, an empty list or an empty mapping are
 * dropped. Lists are not descended into, and the emptiness test looks at a value BEFORE it
 * is sanitised, so the sanitiser is not idempotent.
 */
module Sanitizer {
  import opened Wrappers

  /** A value as loaded from YAML; a mapping keeps its entries in insertion order. */
  datatype Value =
    | Null
    | Bool(b: bool)
    | Int(i: int)
    | Float(r: real)
    | Str(s: string)
    | List(items: seq<Value>)
    | Dict(entries: seq<(string, Value)>)

  /** `v in (None, [], {})`: equality with one of the three, so `0`, `""` and `False` are not dropped. */
  predicate Dropped(v: Value) {
    v == Null || v == List([]) || v == Dict([])
  }

  /** The entries whose value is not dropped, in their order. */
  function Kept(entries: seq<(string, Value)>): (kept: seq<(string, Value)>)
    ensures |kept| <= |entries|
    ensures forall j :: 0 <= j < |kept| ==> kept[j] in entries && !Dropped(kept[j].1)
  {
    if entries == [] then []
    else (if Dropped(entries[0].1) then [] else [entries[0]]) + Kept(entries[1..])
  }

  /**
   * A non-mapping is returned as it is; a mapping keeps the entries whose value is not
   * dropped, each value sanitised. No value of the result is null or an empty list, but one
   * may be an empty mapping.
   */
  function Sanitize(v: Value): (r: Value)
    ensures !v.Dict? ==> r == v
    ensures v.Dict? ==> r.Dict? && |r.entries| <= |v.entries|
    ensures v.Dict? ==> forall j :: 0 <= j < |r.entries| ==> r.entries[j].1 != Null && r.entries[j].1 != List([])
  {
    match v
    case Dict(entries) =>
      var kept := Kept(entries);
      Dict(seq(|kept|, i requires 0 <= i < |kept| => (kept[i].0, Sanitize(kept[i].1))))
    case _ => v
  }

  /** The entries of a sanitised mapping. */
  function SanitizedEntries(entries: seq<(string, Value)>): seq<(string, Value)> {
    Sanitize(Dict(entries)).entries
  }

  /** Sanitising a mapping entry by entry: the first entry is decided, then the rest. */
  lemma SanitizedEntriesStep(entries: seq<(string, Value)>)
    requires entries != []
    ensures SanitizedEntries(entries)
         == (if Dropped(entries[0].1) then [] else [(entries[0].0, Sanitize(entries[0].1))])
            + SanitizedEntries(entries[1..])
  {
    var kept := Kept(entries);
    var tail := Kept(entries[1..]);
    if Dropped(entries[0].1) {
      assert kept == tail;
    } else {
      assert kept == [entries[0]] + tail;
      var out := SanitizedEntries(entries);
      assert out[1..] == SanitizedEntries(entries[1..]);
    }
  }

  // ---------------------------------------------------------------------------------------
  // Mappings as Python dictionaries: keys, lookup, uniqueness.

  function Keys(entries: seq<(string, Value)>): (ks: seq<string>)
    ensures |ks| == |entries|
    ensures forall i :: 0 <= i < |entries| ==> ks[i] == entries[i].0
  {
    if entries == [] then [] else [entries[0].0] + Keys(entries[1..])
  }

  /** `d.get(k)` */
  function Lookup(entries: seq<(string, Value)>, k: string): Option<Value> {
    if entries == [] then None
    else if entries[0].0 == k then Some(entries[0].1)
    else Lookup(entries[1..], k)
  }

  /** A Python dictionary never holds a key twice. */
  predicate UniqueKeys(entries: seq<(string, Value)>) {
    forall i, j :: 0 <= i < j < |entries| ==> entries[i].0 != entries[j].0
  }

  /** Every mapping, at every depth (inside lists too), has unique keys. */
  predicate WellFormed(v: Value) {
    match v
    case List(items) => forall i :: 0 <= i < |items| ==> WellFormed(items[i])
    case Dict(entries) => UniqueKeys(entries) && forall i :: 0 <= i < |entries| ==> WellFormed(entries[i].1)
    case _ => true
  }

  /** `xs` is `ys` with some elements left out, the rest in their order. */
  predicate IsSubsequence(xs: seq<string>, ys: seq<string>) {
    if ys == [] then xs == []
    else IsSubsequence(xs, ys[1..]) || (xs != [] && xs[0] == ys[0] && IsSubsequence(xs[1..], ys[1..]))
  }

  lemma {:induction false} LookupAbsent(entries: seq<(string, Value)>, k: string)
    requires k !in Keys(entries)
    ensures Lookup(entries, k) == None
  {
    if entries != [] {
      LookupAbsent(entries[1..], k);
    }
  }

  // ---------------------------------------------------------------------------------------
  // What the sanitiser keeps.

  /** What a lookup in the input predicts for the same lookup in the sanitised mapping. */
  function KeptLookup(found: Option<Value>): Option<Value> {
    match found
    case None => None
    case Some(v) => if Dropped(v) then None else Some(Sanitize(v))
  }

  /**
   * Against the input read as a dictionary: a key is in the result exactly when its input
   * value is not null, `[]` or `{}`, and then it maps to the sanitised input value.
   */
  lemma {:induction false} SanitizeLookup(entries: seq<(string, Value)>, k: string)
    requires UniqueKeys(entries)
    ensures Lookup(SanitizedEntries(entries), k) == KeptLookup(Lookup(entries, k))
  {
    if entries != [] {
      var rest := entries[1..];
      assert UniqueKeys(rest) by {
        forall i, j | 0 <= i < j < |rest| ensures rest[i].0 != rest[j].0 {
          assert rest[i] == entries[i + 1] && rest[j] == entries[j + 1];
        }
      }
      SanitizeLookup(rest, k);
      SanitizedEntriesStep(entries);
      var out := SanitizedEntries(entries);
      var tail := SanitizedEntries(rest);
      var head := entries[0];
      if head.0 == k {
        assert k !in Keys(rest) by {
          forall i | 0 <= i < |rest| ensures Keys(rest)[i] != k {
            assert rest[i] == entries[i + 1];
          }
        }
        LookupAbsent(rest, k);
        assert Lookup(entries, k) == Some(head.1);
        if Dropped(head.1) {
          assert out == tail;
        } else {
          assert out == [(k, Sanitize(head.1))] + tail;
          assert Lookup(out, k) == Some(Sanitize(head.1));
        }
      } else {
        assert Lookup(entries, k) == Lookup(rest, k);
        if Dropped(head.1) {
          assert out == tail;
        } else {
          assert out == [(head.0, Sanitize(head.1))] + tail;
          assert out[1..] == tail;
          assert Lookup(out, k) == Lookup(tail, k);
        }
      }
    }
  }

  /** The kept keys are the input keys with some left out, in their original order. */
  lemma {:induction false} SanitizeKeepsKeyOrder(entries: seq<(string, Value)>)
    ensures IsSubsequence(Keys(SanitizedEntries(entries)), Keys(entries))
  {
    if entries != [] {
      var rest := entries[1..];
      SanitizeKeepsKeyOrder(rest);
      SanitizedEntriesStep(entries);
      var keysIn := Keys(entries);
      var keysOut := Keys(SanitizedEntries(entries));
      assert keysIn[1..] == Keys(rest);
      if Dropped(entries[0].1) {
        assert keysOut == Keys(SanitizedEntries(rest));
        assert IsSubsequence(keysOut, keysIn[1..]);
      } else {
        assert keysOut[0] == keysIn[0];
        assert keysOut[1..] == Keys(SanitizedEntries(rest));
        assert IsSubsequence(keysOut[1..], keysIn[1..]);
      }
    }
  }

  /** Every key of the result is a key of the input. */
  lemma {:induction false} SanitizeKeysFromInput(entries: seq<(string, Value)>, k: string)
    requires k in Keys(SanitizedEntries(entries))
    ensures k in Keys(entries)
  {
    if entries != [] {
      var rest := entries[1..];
      SanitizedEntriesStep(entries);
      assert Keys(entries) == [entries[0].0] + Keys(rest);
      if Dropped(entries[0].1) {
        SanitizeKeysFromInput(rest, k);
      } else if k != entries[0].0 {
        assert Keys(SanitizedEntries(entries)) == [entries[0].0] + Keys(SanitizedEntries(rest));
        SanitizeKeysFromInput(rest, k);
      }
    }
  }

  /** A dictionary stays a dictionary: no key appears twice in the result. */
  lemma {:induction false} SanitizeKeepsUniqueKeys(entries: seq<(string, Value)>)
    requires UniqueKeys(entries)
    ensures UniqueKeys(SanitizedEntries(entries))
  {
    if entries != [] {
      var rest := entries[1..];
      assert UniqueKeys(rest) by {
        forall i, j | 0 <= i < j < |rest| ensures rest[i].0 != rest[j].0 {
          assert rest[i] == entries[i + 1] && rest[j] == entries[j + 1];
        }
      }
      SanitizeKeepsUniqueKeys(rest);
      SanitizedEntriesStep(entries);
      if !Dropped(entries[0].1) {
        var out := SanitizedEntries(entries);
        var tail := SanitizedEntries(rest);
        forall j | 0 <= j < |tail| ensures tail[j].0 != entries[0].0 {
          assert Keys(tail)[j] == tail[j].0;
          SanitizeKeysFromInput(rest, tail[j].0);
          var i :| 0 <= i < |rest| && Keys(rest)[i] == tail[j].0;
          assert rest[i] == entries[i + 1];
        }
        forall i, j | 0 <= i < j < |out| ensures out[i].0 != out[j].0 {
          assert out[j] == tail[j - 1];
          if i > 0 {
            assert out[i] == tail[i - 1];
          }
        }
      }
    }
  }

  /** Sanitising keeps every mapping, at every depth, a dictionary with unique keys. */
  lemma {:induction false} SanitizeKeepsWellFormed(v: Value)
    requires WellFormed(v)
    ensures WellFormed(Sanitize(v))
  {
    if v.Dict? {
      var kept := Kept(v.entries);
      var out := Sanitize(v).entries;
      SanitizeKeepsUniqueKeys(v.entries);
      forall j | 0 <= j < |out| ensures WellFormed(out[j].1) {
        assert out[j].1 == Sanitize(kept[j].1);
        var i :| 0 <= i < |v.entries| && v.entries[i] == kept[j];
        SanitizeKeepsWellFormed(kept[j].1);
      }
    }
  }

  // ---------------------------------------------------------------------------------------
  // When the sanitiser changes nothing, and why it is not idempotent.

  /** No mapping, at any depth outside lists, holds a null, `[]` or `{}` value. */
  predicate Clean(v: Value) {
    match v
    case Dict(entries) => forall i :: 0 <= i < |entries| ==> !Dropped(entries[i].1) && Clean(entries[i].1)
    case _ => true
  }

  /** Nothing is filtered out exactly when no value is dropped. */
  lemma {:induction false} KeptAll(entries: seq<(string, Value)>)
    ensures |Kept(entries)| == |entries| <==> forall i :: 0 <= i < |entries| ==> !Dropped(entries[i].1)
    ensures |Kept(entries)| == |entries| ==> Kept(entries) == entries
  {
    if entries != [] {
      var rest := entries[1..];
      KeptAll(rest);
      assert forall i :: 0 <= i < |rest| ==> rest[i] == entries[i + 1];
      assert forall i :: 1 <= i < |entries| ==> entries[i] == rest[i - 1];
    }
  }

  /** Everything is filtered out exactly when every value is dropped. */
  lemma {:induction false} KeptNone(entries: seq<(string, Value)>)
    ensures Kept(entries) == [] <==> forall i :: 0 <= i < |entries| ==> Dropped(entries[i].1)
  {
    if entries != [] {
      var rest := entries[1..];
      KeptNone(rest);
      assert forall i :: 0 <= i < |rest| ==> rest[i] == entries[i + 1];
      assert forall i :: 1 <= i < |entries| ==> entries[i] == rest[i - 1];
    }
  }

  /** The sanitiser leaves a value unchanged exactly when the value is clean. */
  lemma {:induction false} SanitizeFixedIffClean(v: Value)
    ensures Sanitize(v) == v <==> Clean(v)
  {
    if v.Dict? {
      var entries := v.entries;
      var kept := Kept(entries);
      var out := Sanitize(v).entries;
      KeptAll(entries);
      if Sanitize(v) == v {
        assert |kept| == |entries|;
        forall i | 0 <= i < |entries| ensures Clean(entries[i].1) {
          assert out[i] == entries[i] && kept[i] == entries[i];
          SanitizeFixedIffClean(entries[i].1);
        }
      }
      if Clean(v) {
        forall i | 0 <= i < |entries| ensures out[i] == entries[i] {
          SanitizeFixedIffClean(entries[i].1);
        }
      }
    }
  }

  /**
   * The result is `{}` exactly when the input is a mapping all of whose values are dropped;
   * a non-empty such mapping nested in another one is therefore kept there as `{}`.
   */
  lemma SanitizeToEmptyIff(v: Value)
    ensures Sanitize(v) == Dict([]) <==> v.Dict? && forall i :: 0 <= i < |v.entries| ==> Dropped(v.entries[i].1)
  {
    if v.Dict? {
      KeptNone(v.entries);
    }
  }

  /** `{"a": {"b": None}}` becomes `{"a": {}}`, which a second pass turns into `{}`. */
  lemma NotIdempotent()
    ensures var once := Sanitize(Dict([("a", Dict([("b", Null)]))]));
            once == Dict([("a", Dict([]))]) && Sanitize(once) == Dict([]) && Sanitize(once) != once
  {
    var inner := Dict([("b", Null)]);
    assert Kept([("b", Null)]) == [];
    assert Sanitize(inner) == Dict([]);
    assert Kept([("a", inner)]) == [("a", inner)];
    assert Kept([("a", Dict([]))]) == [];
  }

  /** A falsy scalar is kept, and a list is kept as it is even if it holds a null. */
  lemma KeepsFalsyScalarsAndLists()
    ensures Sanitize(Dict([("zero", Int(0)), ("nested", List([Null])), ("none", Null)]))
         == Dict([("zero", Int(0)), ("nested", List([Null]))])
  {
    var entries := [("zero", Int(0)), ("nested", List([Null])), ("none", Null)];
    assert Kept(entries[2..]) == [];
    assert Kept(entries) == entries[..2];
  }
}
