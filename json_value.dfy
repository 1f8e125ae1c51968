/**
 * `JsonValue`: decoded JSON documents as Python holds them (dicts, lists,
 * strings, numbers, booleans, null) and the key order `json.dumps(...,
 * sort_keys=True)` writes objects in.
 */
module JsonValue {
  import opened Common

  /** A JSON value.  A float is kept as the text it was read from; an object keeps its entries in order. */
  datatype Json =
    | JNull
    | JBool(b: bool)
    | JInt(i: int)
    | JFloat(text: string)
    | JStr(s: string)
    | JArr(items: seq<Json>)
    | JObj(entries: seq<(string, Json)>)

  /** A Python dict has each key once. */
  predicate KeysUnique(es: seq<(string, Json)>)
  {
    forall i, j :: 0 <= i < j < |es| ==> es[i].0 != es[j].0
  }

  /** `d.get(key)`: the value stored under `key`, if any. */
  function Lookup(es: seq<(string, Json)>, key: string): (r: Option<Json>)
    ensures r.None? <==> forall k :: 0 <= k < |es| ==> es[k].0 != key
    ensures r.Some? ==> (key, r.value) in es
  {
    if es == [] then None
    else if es[0].0 == key then Some(es[0].1)
    else Lookup(es[1..], key)
  }

  // ---------------------------------------------------------------------------
  // Python's ordering of strings: by code point, a proper prefix first

  predicate StrLess(a: string, b: string)
  {
    if a == [] then b != []
    else if b == [] then false
    else a[0] < b[0] || (a[0] == b[0] && StrLess(a[1..], b[1..]))
  }

  lemma {:induction false} StrLessIrreflexive(a: string)
    ensures !StrLess(a, a)
  {
    if a != [] {
      StrLessIrreflexive(a[1..]);
    }
  }

  lemma {:induction false} StrLessTransitive(a: string, b: string, c: string)
    requires StrLess(a, b) && StrLess(b, c)
    ensures StrLess(a, c)
  {
    if a != [] && a[0] == b[0] && b[0] == c[0] {
      StrLessTransitive(a[1..], b[1..], c[1..]);
    }
  }

  lemma {:induction false} StrLessTotal(a: string, b: string)
    requires a != b
    ensures StrLess(a, b) || StrLess(b, a)
  {
    if a != [] && b != [] && a[0] == b[0] {
      assert a == [a[0]] + a[1..] && b == [b[0]] + b[1..];
      StrLessTotal(a[1..], b[1..]);
    }
  }

  lemma {:induction false} StrLessAsymmetric(a: string, b: string)
    requires StrLess(a, b)
    ensures !StrLess(b, a)
  {
    if StrLess(b, a) {
      StrLessTransitive(a, b, a);
      StrLessIrreflexive(a);
    }
  }

  // ---------------------------------------------------------------------------
  // sort_keys

  /** Keys strictly increasing: sorted, and each key once. */
  predicate SortedByKey(s: seq<(string, Json)>)
  {
    forall i, j :: 0 <= i < j < |s| ==> StrLess(s[i].0, s[j].0)
  }

  function Insert(e: (string, Json), s: seq<(string, Json)>): (r: seq<(string, Json)>)
    ensures |r| == |s| + 1
    ensures forall x :: x in r <==> x == e || x in s
  {
    if s == [] then [e]
    else if StrLess(e.0, s[0].0) then [e] + s
    else [s[0]] + Insert(e, s[1..])
  }

  lemma {:induction false} InsertSorted(e: (string, Json), s: seq<(string, Json)>)
    requires SortedByKey(s)
    requires forall x :: x in s ==> x.0 != e.0
    ensures SortedByKey(Insert(e, s))
  {
    if s != [] && !StrLess(e.0, s[0].0) {
      assert s[0] in s;
      StrLessTotal(e.0, s[0].0);
      InsertSorted(e, s[1..]);
      var r := [s[0]] + Insert(e, s[1..]);
      forall j | 0 < j < |r|
        ensures StrLess(r[0].0, r[j].0)
      {
        var x := r[j];
        assert x in Insert(e, s[1..]);
        if x != e {
          var k :| 0 <= k < |s[1..]| && s[1..][k] == x;
          assert s[k + 1] == x;
        }
      }
      forall i, j | 0 < i < j < |r|
        ensures StrLess(r[i].0, r[j].0)
      {
        assert r[i] == Insert(e, s[1..])[i - 1] && r[j] == Insert(e, s[1..])[j - 1];
      }
    } else if s != [] {
      var r := [e] + s;
      forall j | 0 < j < |r|
        ensures StrLess(r[0].0, r[j].0)
      {
        if j > 1 {
          assert r[j] == s[j - 1];
          StrLessTransitive(e.0, s[0].0, s[j - 1].0);
        }
      }
    }
  }

  /** `sorted(d.items())`, by insertion. */
  function SortEntries(es: seq<(string, Json)>): (r: seq<(string, Json)>)
    ensures |r| == |es|
    ensures forall x :: x in r <==> x in es
  {
    if es == [] then [] else Insert(es[0], SortEntries(es[1..]))
  }

  /** Sorting the entries of a dict orders them by key, each key once. */
  lemma {:induction false} SortEntriesSorted(es: seq<(string, Json)>)
    requires KeysUnique(es)
    ensures SortedByKey(SortEntries(es))
  {
    if es != [] {
      assert KeysUnique(es[1..]) by {
        forall i, j | 0 <= i < j < |es[1..]|
          ensures es[1..][i].0 != es[1..][j].0
        {
          assert es[1..][i] == es[i + 1] && es[1..][j] == es[j + 1];
        }
      }
      SortEntriesSorted(es[1..]);
      forall x | x in SortEntries(es[1..])
        ensures x.0 != es[0].0
      {
        var k :| 0 <= k < |es[1..]| && es[1..][k] == x;
        assert es[k + 1] == x;
      }
      InsertSorted(es[0], SortEntries(es[1..]));
    }
  }

  /** Two key-sorted sequences of the same entries are the same sequence. */
  lemma {:induction false} SortedWithSameEntries(a: seq<(string, Json)>, b: seq<(string, Json)>)
    requires SortedByKey(a) && SortedByKey(b)
    requires forall x :: x in a <==> x in b
    ensures a == b
  {
    if a != [] {
      assert a[0] in b;
    }
    if b != [] {
      assert b[0] in a;
    }
    if a != [] && b != [] {
      if a[0] != b[0] {
        var i :| 0 <= i < |b| && b[i] == a[0];
        var j :| 0 <= j < |a| && a[j] == b[0];
        assert i > 0 && j > 0;
        StrLessAsymmetric(b[0].0, a[0].0);
        assert false;
      }
      forall x | x in a[1..]
        ensures x in b[1..]
      {
        var k :| 0 <= k < |a[1..]| && a[1..][k] == x;
        assert a[k + 1] == x;
        StrLessIrreflexive(a[0].0);
        assert x in a && x in b;
        var m :| 0 <= m < |b| && b[m] == x;
        assert m != 0;
        assert b[1..][m - 1] == x;
      }
      forall x | x in b[1..]
        ensures x in a[1..]
      {
        var k :| 0 <= k < |b[1..]| && b[1..][k] == x;
        assert b[k + 1] == x;
        StrLessIrreflexive(b[0].0);
        assert x in b && x in a;
        var m :| 0 <= m < |a| && a[m] == x;
        assert m != 0;
        assert a[1..][m - 1] == x;
      }
      SortedWithSameEntries(a[1..], b[1..]);
      assert a == [a[0]] + a[1..] && b == [b[0]] + b[1..];
    }
  }

  /**
   * The document `json.dumps(v, sort_keys=True)` writes: every object's
   * entries in key order, all the way down.
   */
  function Normalize(v: Json): Json
    decreases v, 1
  {
    match v
    case JArr(items) => JArr(seq(|items|, i requires 0 <= i < |items| => Normalize(items[i])))
    case JObj(es) => JObj(SortEntries(NormalizeEntries(es)))
    case _ => v
  }

  /** The entries with their values normalised, keys and order kept. */
  function NormalizeEntries(es: seq<(string, Json)>): seq<(string, Json)>
    decreases JObj(es), 0
  {
    seq(|es|, i requires 0 <= i < |es| => (es[i].0, Normalize(es[i].1)))
  }

  /**
   * A dict's text under `sort_keys` does not depend on the order its entries
   * were inserted in: two dicts with the same entries normalise alike.
   */
  lemma SameEntriesNormalizeAlike(es1: seq<(string, Json)>, es2: seq<(string, Json)>)
    requires KeysUnique(es1) && KeysUnique(es2)
    requires forall x :: x in es1 <==> x in es2
    ensures Normalize(JObj(es1)) == Normalize(JObj(es2))
  {
    var m1, m2 := NormalizeEntries(es1), NormalizeEntries(es2);
    NormalizedEntriesMatch(es1);
    NormalizedEntriesMatch(es2);
    forall x | x in m1
      ensures x in m2
    {
      var e :| e in es1 && x == (e.0, Normalize(e.1));
      assert e in es2;
    }
    forall x | x in m2
      ensures x in m1
    {
      var e :| e in es2 && x == (e.0, Normalize(e.1));
      assert e in es1;
    }
    SortEntriesSorted(m1);
    SortEntriesSorted(m2);
    SortedWithSameEntries(SortEntries(m1), SortEntries(m2));
  }

  /** Normalising the values keeps the keys, so a dict's keys stay unique. */
  lemma NormalizedEntriesMatch(es: seq<(string, Json)>)
    requires KeysUnique(es)
    ensures KeysUnique(NormalizeEntries(es))
    ensures forall x :: x in NormalizeEntries(es) <==> exists e :: e in es && x == (e.0, Normalize(e.1))
  {
    var m := NormalizeEntries(es);
    forall x | x in m
      ensures exists e :: e in es && x == (e.0, Normalize(e.1))
    {
      var k :| 0 <= k < |m| && m[k] == x;
      assert es[k] in es;
    }
    forall e | e in es
      ensures (e.0, Normalize(e.1)) in m
    {
      var k :| 0 <= k < |es| && es[k] == e;
      assert m[k] == (e.0, Normalize(e.1));
    }
  }
}
