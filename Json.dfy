/** The JSON values the identity code signs and the client sends, and Python's
    `json.dumps` over them: `sort_keys` and the two separators are parameters,
    `ensure_ascii` is on. The signing rule (identity.py:119-120 and 203-204) is
    `json.dumps(payload, sort_keys=True, separators=(',', ':'))` followed by
    UTF-8 encoding; the request body (client.py:118) is `json.dumps(payload)`.

    The main result, `CanonicalOrderIndependent`, is that the signed bytes do
    not depend on the order in which any object's keys were inserted, at any
    nesting level. */
module Json {
  import opened Base
  import opened Text
  import opened Dict
  import opened JsonString

  /** Floats are not part of this value type. An object is a dict: its pairs
      in insertion order. */
  datatype Json =
    | JNull
    | JBool(b: bool)
    | JInt(i: int)
    | JStr(s: string)
    | JArr(items: seq<Json>)
    | JObj(fields: seq<(string, Json)>)

  /** Every object, at every level, has distinct keys (as a Python dict does). */
  predicate WellFormed(v: Json)
    decreases v
  {
    match v
    case JArr(items) => forall i :: 0 <= i < |items| ==> WellFormed(items[i])
    case JObj(fs) => DistinctKeys(fs) && forall i :: 0 <= i < |fs| ==> WellFormed(fs[i].1)
    case _ => true
  }

  // ---------------------------------------------------------------------------
  // Key order: Python compares `str` values code point by code point

  predicate StrLess(a: string, b: string)
    decreases |a|
  {
    if a == [] then b != []
    else if b == [] then false
    else a[0] < b[0] || (a[0] == b[0] && StrLess(a[1..], b[1..]))
  }

  lemma {:induction false} StrLessIrreflexive(a: string)
    ensures !StrLess(a, a)
  {
    if a != [] { StrLessIrreflexive(a[1..]); }
  }

  lemma {:induction false} StrLessTotal(a: string, b: string)
    ensures a == b || StrLess(a, b) || StrLess(b, a)
  {
    if a != [] && b != [] && a[0] == b[0] {
      StrLessTotal(a[1..], b[1..]);
      if a[1..] == b[1..] {
        assert a == [a[0]] + a[1..] && b == [b[0]] + b[1..];
      }
    }
  }

  lemma {:induction false} StrLessAsymmetric(a: string, b: string)
    requires StrLess(a, b)
    ensures !StrLess(b, a)
  {
    if a != [] && b != [] && a[0] == b[0] { StrLessAsymmetric(a[1..], b[1..]); }
  }

  lemma {:induction false} StrLessTransitive(a: string, b: string, c: string)
    requires StrLess(a, b) && StrLess(b, c)
    ensures StrLess(a, c)
  {
    if a != [] && a[0] == b[0] && b[0] == c[0] {
      StrLessTransitive(a[1..], b[1..], c[1..]);
    }
  }

  // ---------------------------------------------------------------------------
  // sorted(d.items()) for a dict whose values are already encoded

  type Entry = (string, string)

  predicate StrictlySorted(s: seq<Entry>) {
    forall i, j :: 0 <= i < j < |s| ==> StrLess(s[i].0, s[j].0)
  }

  function Insert(e: Entry, s: seq<Entry>): (r: seq<Entry>)
    ensures multiset(r) == multiset(s) + multiset{e}
  {
    if s == [] then [e]
    else if StrLess(s[0].0, e.0) then
      assert s == [s[0]] + s[1..];
      [s[0]] + Insert(e, s[1..])
    else [e] + s
  }

  function SortByKey(s: seq<Entry>): (r: seq<Entry>)
    ensures multiset(r) == multiset(s)
  {
    if s == [] then []
    else
      assert s == [s[0]] + s[1..];
      Insert(s[0], SortByKey(s[1..]))
  }

  lemma {:induction false} InsertSorted(e: Entry, s: seq<Entry>)
    requires StrictlySorted(s)
    requires forall x :: x in s ==> x.0 != e.0
    ensures StrictlySorted(Insert(e, s))
  {
    if s != [] {
      if StrLess(s[0].0, e.0) {
        assert s == [s[0]] + s[1..];
        InsertSorted(e, s[1..]);
        var t := Insert(e, s[1..]);
        var r := [s[0]] + t;
        forall j | 0 < j < |r| ensures StrLess(s[0].0, r[j].0) {
          assert r[j] in multiset(t);
          if r[j] != e {
            assert r[j] in s[1..];
            var k :| 0 <= k < |s[1..]| && s[1..][k] == r[j];
            assert s[k + 1] == r[j];
          }
        }
      } else {
        var r := [e] + s;
        forall j | 0 < j < |r| ensures StrLess(e.0, r[j].0) {
          assert r[j] == s[j - 1];
          StrLessTotal(e.0, s[0].0);
          if j > 1 { StrLessTransitive(e.0, s[0].0, s[j - 1].0); }
        }
      }
    }
  }

  /** With distinct keys the sort leaves keys strictly increasing. */
  lemma {:induction false} SortByKeySorted(s: seq<Entry>)
    requires DistinctKeys(s)
    ensures StrictlySorted(SortByKey(s))
  {
    if s != [] {
      var tail := s[1..];
      assert DistinctKeys(tail) by {
        forall i, j | 0 <= i < j < |tail| ensures tail[i].0 != tail[j].0 {
          assert tail[i] == s[i + 1] && tail[j] == s[j + 1];
        }
      }
      SortByKeySorted(tail);
      forall x | x in SortByKey(tail) ensures x.0 != s[0].0 {
        assert x in multiset(SortByKey(tail));
        assert x in tail;
        var k :| 0 <= k < |tail| && tail[k] == x;
        assert s[k + 1] == x;
      }
      InsertSorted(s[0], SortByKey(tail));
    }
  }

  /** Two strictly sorted lists with the same elements are the same list. */
  lemma {:induction false} SortedUnique(a: seq<Entry>, b: seq<Entry>)
    requires StrictlySorted(a) && StrictlySorted(b)
    requires forall x :: x in a <==> x in b
    ensures a == b
  {
    assert a != [] ==> a[0] in b;
    assert b != [] ==> b[0] in a;
    if a == [] || b == [] {
      assert a == [] && b == [];
    } else {
      SameHead(a, b);
      forall x ensures x in a[1..] <==> x in b[1..] {
        if x in a[1..] { InTail(a, b, x); }
        if x in b[1..] { InTail(b, a, x); }
      }
      SortedUnique(a[1..], b[1..]);
      assert a == [a[0]] + a[1..] && b == [b[0]] + b[1..];
    }
  }

  /** The least elements of two sorted lists with the same elements agree. */
  lemma SameHead(a: seq<Entry>, b: seq<Entry>)
    requires StrictlySorted(a) && StrictlySorted(b) && a != [] && b != []
    requires a[0] in b && b[0] in a
    ensures a[0] == b[0]
  {
    var i :| 0 <= i < |b| && b[i] == a[0];
    var j :| 0 <= j < |a| && a[j] == b[0];
    if i > 0 && j > 0 {
      StrLessAsymmetric(b[0].0, a[0].0);
    }
    if i > 0 && j == 0 { StrLessIrreflexive(b[0].0); }
    if j > 0 && i == 0 { StrLessIrreflexive(a[0].0); }
  }

  /** Past a shared head, an element of one list's tail is in the other's. */
  lemma InTail(a: seq<Entry>, b: seq<Entry>, x: Entry)
    requires StrictlySorted(a) && StrictlySorted(b) && a != [] && b != [] && a[0] == b[0]
    requires x in a[1..] && x in b
    ensures x in b[1..]
  {
    var k :| 0 <= k < |a[1..]| && a[1..][k] == x;
    assert a[k + 1] == x;
    StrLessIrreflexive(x.0);
    var m :| 0 <= m < |b| && b[m] == x;
    assert m != 0;
    assert b[1..][m - 1] == x;
  }

  // ---------------------------------------------------------------------------
  // json.dumps

  /** `sort_keys`, `item_separator` and `key_separator` of Python's encoder. */
  datatype Format = Format(sortKeys: bool, itemSep: string, keySep: string)

  /** The signing rule: sorted keys, `,` and `:` with no whitespace. */
  const Canonical: Format := Format(true, ",", ":")

  /** `json.dumps` with no options: insertion order, `, ` and `: `. */
  const PythonDefault: Format := Format(false, ", ", ": ")

  function Join(parts: seq<string>, sep: string): string {
    if parts == [] then ""
    else if |parts| == 1 then parts[0]
    else parts[0] + sep + Join(parts[1..], sep)
  }

  function Dumps(v: Json, f: Format): string
    decreases v, 1
  {
    match v
    case JNull => "null"
    case JBool(b) => if b then "true" else "false"
    case JInt(i) => IntRepr(i)
    case JStr(s) => Quote(s)
    case JArr(_) => "[" + Join(EncodeItems(v, f), f.itemSep) + "]"
    case JObj(_) =>
      var entries := EncodeFields(v, f);
      var ordered := if f.sortKeys then SortByKey(entries) else entries;
      "{" + Join(Members(ordered, f.keySep), f.itemSep) + "}"
  }

  /** Each array item encoded, in order. */
  function EncodeItems(v: Json, f: Format): (r: seq<string>)
    requires v.JArr?
    decreases v, 0
  {
    seq(|v.items|, i requires 0 <= i < |v.items| => Dumps(v.items[i], f))
  }

  /** Each object pair with its value encoded, in insertion order. */
  function EncodeFields(v: Json, f: Format): (r: seq<Entry>)
    requires v.JObj?
    decreases v, 0
  {
    seq(|v.fields|, i requires 0 <= i < |v.fields| => (v.fields[i].0, Dumps(v.fields[i].1, f)))
  }

  function Members(entries: seq<Entry>, keySep: string): seq<string> {
    seq(|entries|, i requires 0 <= i < |entries| => Quote(entries[i].0) + keySep + entries[i].1)
  }

  // ---------------------------------------------------------------------------
  // Canonical order independence

  /** Same content up to the insertion order of keys, at every level: arrays
      match item by item, objects have distinct keys, the same key set, and
      equivalent values under each key. */
  ghost predicate Equiv(a: Json, b: Json)
    decreases a
  {
    match a
    case JArr(xs) =>
      b.JArr? && |xs| == |b.items| &&
      forall i :: 0 <= i < |xs| ==> Equiv(xs[i], b.items[i])
    case JObj(fs) =>
      b.JObj? && DistinctKeys(fs) && DistinctKeys(b.fields) &&
      (forall k :: k in Keys(fs) <==> k in Keys(b.fields)) &&
      forall i, j :: 0 <= i < |fs| && 0 <= j < |b.fields| && fs[i].0 == b.fields[j].0 ==>
        Equiv(fs[i].1, b.fields[j].1)
    case _ => a == b
  }

  /** Every well-formed value is equivalent to itself. */
  lemma {:induction false} EquivReflexive(v: Json)
    requires WellFormed(v)
    ensures Equiv(v, v)
  {
    match v
    case JArr(xs) =>
      forall i | 0 <= i < |xs| ensures Equiv(xs[i], xs[i]) { EquivReflexive(xs[i]); }
    case JObj(fs) =>
      forall i, j | 0 <= i < |fs| && 0 <= j < |fs| && fs[i].0 == fs[j].0
        ensures Equiv(fs[i].1, fs[j].1)
      {
        EquivReflexive(fs[i].1);
      }
    case _ =>
  }

  /** THE signing property: equivalent payloads have identical canonical text. */
  lemma {:induction false} CanonicalOrderIndependent(a: Json, b: Json)
    requires Equiv(a, b)
    ensures Dumps(a, Canonical) == Dumps(b, Canonical)
    decreases a
  {
    match a
    case JArr(xs) =>
      forall i | 0 <= i < |xs|
        ensures Dumps(xs[i], Canonical) == Dumps(b.items[i], Canonical)
      {
        CanonicalOrderIndependent(xs[i], b.items[i]);
      }
      assert EncodeItems(a, Canonical) == EncodeItems(b, Canonical);
    case JObj(fs) =>
      var gs := b.fields;
      forall i, j | 0 <= i < |fs| && 0 <= j < |gs| && fs[i].0 == gs[j].0
        ensures Dumps(fs[i].1, Canonical) == Dumps(gs[j].1, Canonical)
      {
        CanonicalOrderIndependent(fs[i].1, gs[j].1);
      }
      SameSortedEntries(a, b);
    case _ =>
  }

  /** The object step: once values under equal keys encode alike, the sorted
      entry lists coincide. */
  lemma SameSortedEntries(a: Json, b: Json)
    requires a.JObj? && b.JObj?
    requires DistinctKeys(a.fields) && DistinctKeys(b.fields)
    requires forall k :: k in Keys(a.fields) <==> k in Keys(b.fields)
    requires forall i, j :: 0 <= i < |a.fields| && 0 <= j < |b.fields| && a.fields[i].0 == b.fields[j].0 ==>
               Dumps(a.fields[i].1, Canonical) == Dumps(b.fields[j].1, Canonical)
    ensures SortByKey(EncodeFields(a, Canonical)) == SortByKey(EncodeFields(b, Canonical))
  {
    EntriesMatch(a, b);
    EntriesMatch(b, a);
    EncodeFieldsDistinct(a);
    EncodeFieldsDistinct(b);
    SortSameElements(EncodeFields(a, Canonical), EncodeFields(b, Canonical));
  }

  /** Sorting forgets the order: entry lists with distinct keys and the same
      elements sort to the same list. */
  lemma SortSameElements(ea: seq<Entry>, eb: seq<Entry>)
    requires DistinctKeys(ea) && DistinctKeys(eb)
    requires forall x :: x in ea <==> x in eb
    ensures SortByKey(ea) == SortByKey(eb)
  {
    SortByKeySorted(ea);
    SortByKeySorted(eb);
    forall x ensures x in SortByKey(ea) <==> x in SortByKey(eb) {
      assert x in SortByKey(ea) <==> x in multiset(SortByKey(ea));
      assert x in SortByKey(eb) <==> x in multiset(SortByKey(eb));
      assert x in ea <==> x in multiset(ea);
      assert x in eb <==> x in multiset(eb);
    }
    SortedUnique(SortByKey(ea), SortByKey(eb));
  }

  lemma EntriesMatch(a: Json, b: Json)
    requires a.JObj? && b.JObj?
    requires forall k :: k in Keys(a.fields) ==> k in Keys(b.fields)
    requires forall i, j :: 0 <= i < |a.fields| && 0 <= j < |b.fields| && a.fields[i].0 == b.fields[j].0 ==>
               Dumps(a.fields[i].1, Canonical) == Dumps(b.fields[j].1, Canonical)
    ensures forall x :: x in EncodeFields(a, Canonical) ==> x in EncodeFields(b, Canonical)
  {
    var ea, eb := EncodeFields(a, Canonical), EncodeFields(b, Canonical);
    forall x | x in ea ensures x in eb {
      var i :| 0 <= i < |ea| && ea[i] == x;
      assert a.fields[i].0 in Keys(a.fields) by { assert Keys(a.fields)[i] == a.fields[i].0; }
      var j :| 0 <= j < |b.fields| && Keys(b.fields)[j] == a.fields[i].0;
      assert eb[j] == x;
    }
  }

  lemma EncodeFieldsDistinct(a: Json)
    requires a.JObj? && DistinctKeys(a.fields)
    ensures DistinctKeys(EncodeFields(a, Canonical))
  {
  }

  /** Two insertion orders of the same object, `{"b":1,"a":2}` and
      `{"a":2,"b":1}`, give the same canonical text, `{"a":2,"b":1}`. */
  lemma CanonicalConcrete()
    ensures Dumps(JObj([("b", JInt(1)), ("a", JInt(2))]), Canonical) == "{\"a\":2,\"b\":1}"
    ensures Dumps(JObj([("a", JInt(2)), ("b", JInt(1))]), Canonical) == "{\"a\":2,\"b\":1}"
  {
    var sorted := [("a", "2"), ("b", "1")];
    ConcreteEntries();
    ConcreteSort();
    ConcreteText();
    assert Dumps(JObj([("b", JInt(1)), ("a", JInt(2))]), Canonical)
        == "{" + Join(Members(sorted, ":"), ",") + "}";
    assert Dumps(JObj([("a", JInt(2)), ("b", JInt(1))]), Canonical)
        == "{" + Join(Members(sorted, ":"), ",") + "}";
  }

  lemma ConcreteEntries()
    ensures EncodeFields(JObj([("b", JInt(1)), ("a", JInt(2))]), Canonical) == [("b", "1"), ("a", "2")]
    ensures EncodeFields(JObj([("a", JInt(2)), ("b", JInt(1))]), Canonical) == [("a", "2"), ("b", "1")]
  {
    assert IntRepr(1) == "1" && IntRepr(2) == "2";
  }

  lemma ConcreteSort()
    ensures SortByKey([("b", "1"), ("a", "2")]) == [("a", "2"), ("b", "1")]
    ensures SortByKey([("a", "2"), ("b", "1")]) == [("a", "2"), ("b", "1")]
  {
    assert StrLess("a", "b") && !StrLess("b", "a");
  }

  lemma ConcreteText()
    ensures "{" + Join(Members([("a", "2"), ("b", "1")], ":"), ",") + "}" == "{\"a\":2,\"b\":1}"
  {
    assert Escape("a") == "a" && Escape("b") == "b";
    var members := Members([("a", "2"), ("b", "1")], ":");
    assert members[0] == Quote("a") + ":" + "2" == "\"a\":2";
    assert members[1] == Quote("b") + ":" + "1" == "\"b\":1";
    assert Join(members, ",") == members[0] + "," + members[1];
  }

  // ---------------------------------------------------------------------------
  // UTF-8 and the signed message

  function Utf8Char(c: char): (r: seq<byte>)
    ensures 1 <= |r| <= 4
    ensures |r| == 1 <==> c as int < 0x80
  {
    var n := c as int;
    if n < 0x80 then [n as byte]
    else if n < 0x800 then [(0xC0 + n / 0x40) as byte, (0x80 + n % 0x40) as byte]
    else if n < 0x10000 then
      [(0xE0 + n / 0x1000) as byte, (0x80 + n / 0x40 % 0x40) as byte, (0x80 + n % 0x40) as byte]
    else
      [(0xF0 + n / 0x40000) as byte, (0x80 + n / 0x1000 % 0x40) as byte,
       (0x80 + n / 0x40 % 0x40) as byte, (0x80 + n % 0x40) as byte]
  }

  /** `str.encode('utf-8')`. */
  function Utf8Encode(s: string): seq<byte> {
    if s == [] then [] else Utf8Char(s[0]) + Utf8Encode(s[1..])
  }

  /** On printable ASCII text, UTF-8 is one byte per character, the code point. */
  lemma {:induction false} Utf8Ascii(s: string)
    requires AllPrintableAscii(s)
    ensures |Utf8Encode(s)| == |s|
    ensures forall i :: 0 <= i < |s| ==> Utf8Encode(s)[i] as int == s[i] as int
  {
    if s != [] {
      Utf8Ascii(s[1..]);
      assert forall i :: 1 <= i < |s| ==> s[1..][i - 1] == s[i];
    }
  }

  lemma JoinPrintable(parts: seq<string>, sep: string)
    requires AllPrintableAscii(sep)
    requires forall i :: 0 <= i < |parts| ==> AllPrintableAscii(parts[i])
    ensures AllPrintableAscii(Join(parts, sep))
  {
    if |parts| > 1 {
      JoinPrintable(parts[1..], sep);
      PrintableConcat(parts[0], sep);
      PrintableConcat(parts[0] + sep, Join(parts[1..], sep));
    }
  }

  lemma NatReprPrintable(n: nat)
    ensures AllPrintableAscii(NatRepr(n))
  {
  }

  /** Python's encoder with `ensure_ascii` writes printable ASCII only, so the
      UTF-8 step of the signing rule changes nothing but the type. */
  lemma {:induction false} DumpsPrintable(v: Json, f: Format)
    requires AllPrintableAscii(f.itemSep) && AllPrintableAscii(f.keySep)
    ensures AllPrintableAscii(Dumps(v, f))
    decreases v
  {
    match v
    case JInt(i) =>
      NatReprPrintable(if i < 0 then -i else i);
      if i < 0 { PrintableConcat("-", NatRepr(-i)); }
    case JArr(xs) =>
      var parts := EncodeItems(v, f);
      forall i | 0 <= i < |parts| ensures AllPrintableAscii(parts[i]) {
        DumpsPrintable(xs[i], f);
      }
      JoinPrintable(parts, f.itemSep);
      PrintableConcat("[", Join(parts, f.itemSep));
      PrintableConcat("[" + Join(parts, f.itemSep), "]");
    case JObj(fs) =>
      var entries := EncodeFields(v, f);
      forall i | 0 <= i < |entries| ensures AllPrintableAscii(entries[i].1) {
        DumpsPrintable(fs[i].1, f);
      }
      var ordered := if f.sortKeys then SortByKey(entries) else entries;
      forall i | 0 <= i < |ordered| ensures AllPrintableAscii(ordered[i].1) {
        assert ordered[i] in multiset(entries);
        var k :| 0 <= k < |entries| && entries[k] == ordered[i];
      }
      var members := Members(ordered, f.keySep);
      forall i | 0 <= i < |members| ensures AllPrintableAscii(members[i]) {
        PrintableConcat(Quote(ordered[i].0), f.keySep);
        PrintableConcat(Quote(ordered[i].0) + f.keySep, ordered[i].1);
      }
      JoinPrintable(members, f.itemSep);
      PrintableConcat("{", Join(members, f.itemSep));
      PrintableConcat("{" + Join(members, f.itemSep), "}");
    case _ =>
  }

  /** The bytes that `sign` hands to Ed25519: the canonical text, one byte per
      character. */
  function CanonicalMessage(v: Json): (m: seq<byte>)
    ensures |m| == |Dumps(v, Canonical)|
    ensures forall i :: 0 <= i < |m| ==> m[i] as int == Dumps(v, Canonical)[i] as int
  {
    DumpsPrintable(v, Canonical);
    Utf8Ascii(Dumps(v, Canonical));
    Utf8Encode(Dumps(v, Canonical))
  }

  /** Equivalent payloads yield the same signed message. */
  lemma CanonicalMessageOrderIndependent(a: Json, b: Json)
    requires Equiv(a, b)
    ensures CanonicalMessage(a) == CanonicalMessage(b)
  {
    CanonicalOrderIndependent(a, b);
  }
}
