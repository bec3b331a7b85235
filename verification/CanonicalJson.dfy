/**
 The recursive canonicalisation of request bodies in gateway/src/idempotency.ts, and the proof that
 it decides equality of JSON values up to the order of object members.
 */
module CanonicalJson {
  import opened Prelude

  /** A JavaScript number that came out of `JSON.parse`: the text that `String(n)` gives it when it is
      finite; an out-of-range literal such as 1e999 is parsed to an infinity. */
  datatype Number = Finite(text: string) | NonFinite(negative: bool)

  /** A parsed JSON value. An object is the list of its own members in some order. */
  datatype Json =
    | Null
    | Bool(b: bool)
    | Num(n: Number)
    | Str(s: string)
    | Arr(items: seq<Json>)
    | Obj(members: seq<Member>)

  datatype Member = Member(key: string, value: Json)

  /** Assigning to this key with `acc[key] = ...` sets the prototype and adds no own member. */
  const PROTO := "__proto__"

  predicate DistinctKeys(ms: seq<Member>) {
    forall i, j :: 0 <= i < j < |ms| ==> ms[i].key != ms[j].key
  }

  predicate NumberText(s: string) {
    && s != []
    && (s[0] == '-' || '0' <= s[0] <= '9')
    && forall i :: 0 <= i < |s| ==> s[i] in "0123456789+-.e"
  }

  /** What every value built by `JSON.parse` satisfies. */
  predicate WellFormed(v: Json) {
    match v
    case Num(Finite(t)) => NumberText(t)
    case Arr(items) => forall i :: 0 <= i < |items| ==> WellFormed(items[i])
    case Obj(ms) => DistinctKeys(ms) && forall i :: 0 <= i < |ms| ==> WellFormed(ms[i].value)
    case _ => true
  }

  // ---------------------------------------------------------------- property order

  /** An array index: a canonical decimal numeral below 2^32 - 1. */
  predicate IsIndex(s: string) {
    || s == "0"
    || (&& s != []
        && '1' <= s[0] <= '9'
        && (forall i :: 0 <= i < |s| ==> '0' <= s[i] <= '9')
        && (|s| < 10 || (|s| == 10 && LexLeq(s, "4294967294"))))
  }

  /** The order in which the members assigned in sorted order by `canonicalize` are enumerated: a
      JavaScript object lists its array indices first, in numeric order, then the other keys in
      order of assignment, which here is the order of `sort()`. */
  predicate KeyLeq(a: string, b: string) {
    if IsIndex(a) != IsIndex(b) then IsIndex(a)
    else if IsIndex(a) && |a| != |b| then |a| < |b|
    else LexLeq(a, b)
  }

  lemma KeyOrder(a: string, b: string, c: string)
    ensures KeyLeq(a, b) || KeyLeq(b, a)
    ensures KeyLeq(a, b) && KeyLeq(b, a) ==> a == b
    ensures KeyLeq(a, b) && KeyLeq(b, c) ==> KeyLeq(a, c)
  {
    LexOrder(a, b, c);
  }

  // The order on array indices is the numeric one.

  predicate Digits(s: string) { forall i :: 0 <= i < |s| ==> '0' <= s[i] <= '9' }

  function Pow10(n: nat): (p: nat)
    ensures p >= 1
  {
    if n == 0 then 1 else 10 * Pow10(n - 1)
  }

  function ValueOf(s: string): (v: nat)
    requires Digits(s)
  {
    if s == [] then 0 else (s[0] as int - '0' as int) * Pow10(|s| - 1) + ValueOf(s[1..])
  }

  lemma {:induction false} TimesMonotone(d: int, e: int, p: nat)
    requires d < e
    ensures d * p + p <= e * p
    decreases e - d
  {
    assert d * p + p == (d + 1) * p;
    if d + 1 < e { TimesMonotone(d + 1, e, p); }
  }

  lemma {:induction false} ValueBounds(s: string)
    requires Digits(s)
    ensures ValueOf(s) < Pow10(|s|)
    ensures s != [] && s[0] != '0' ==> ValueOf(s) >= Pow10(|s| - 1)
  {
    if s != [] {
      ValueBounds(s[1..]);
      var p, d := Pow10(|s| - 1), s[0] as int - '0' as int;
      if d < 9 { TimesMonotone(d, 9, p); }
      if d > 0 { TimesMonotone(0, d, p); }
    }
  }

  lemma {:induction false} LexIsNumeric(a: string, b: string)
    requires |a| == |b| && Digits(a) && Digits(b)
    ensures LexLeq(a, b) <==> ValueOf(a) <= ValueOf(b)
  {
    if a != [] {
      LexIsNumeric(a[1..], b[1..]);
      ValueBounds(a[1..]);
      ValueBounds(b[1..]);
      var p, d, e := Pow10(|a| - 1), a[0] as int - '0' as int, b[0] as int - '0' as int;
      if d < e {
        TimesMonotone(d, e, p);
      } else if e < d {
        TimesMonotone(e, d, p);
      }
    }
  }

  lemma {:induction false} Pow10Monotone(m: nat, n: nat)
    requires m <= n
    ensures Pow10(m) <= Pow10(n)
  {
    if m < n { Pow10Monotone(m, n - 1); }
  }

  /** A canonical numeral: digits without a leading zero. */
  predicate Numeral(s: string) { s != [] && Digits(s) && (s[0] == '0' ==> |s| == 1) }

  lemma ShorterIsLess(a: string, b: string)
    requires Numeral(a) && Numeral(b) && |a| < |b|
    ensures ValueOf(a) < ValueOf(b)
  {
    ValueBounds(a);
    ValueBounds(b);
    Pow10Monotone(|a|, |b| - 1);
  }

  lemma IndexForm(s: string)
    ensures IsIndex(s) <==> Numeral(s) && (|s| < 10 || (|s| == 10 && LexLeq(s, "4294967294")))
  {
    if Numeral(s) && s[0] == '0' { assert s == "0"; }
  }

  /** An array index is the canonical numeral of a number below 2^32 - 1, as section 6.1.7 of ECMA-262 says. */
  lemma IndexIsNumeral(s: string)
    ensures IsIndex(s) <==> Numeral(s) && ValueOf(s) < 0xFFFF_FFFF
  {
    IndexForm(s);
    LastIndex();
    if Numeral(s) { ComparedWith(s, "4294967294"); }
  }

  lemma ComparedWith(s: string, last: string)
    requires Numeral(s) && Numeral(last)
    ensures |s| < |last| || (|s| == |last| && LexLeq(s, last)) <==> ValueOf(s) <= ValueOf(last)
  {
    if |s| < |last| {
      ShorterIsLess(s, last);
    } else if |s| > |last| {
      ShorterIsLess(last, s);
    } else {
      LexIsNumeric(s, last);
    }
  }

  lemma Prepend(c: char, s: string, p: nat)
    requires '0' <= c <= '9' && Digits(s) && Pow10(|s|) == p
    ensures Digits([c] + s) && Pow10(|s| + 1) == 10 * p
    ensures ValueOf([c] + s) == (c as int - '0' as int) * p + ValueOf(s)
  {
    assert ([c] + s)[1..] == s;
  }

  lemma LastIndex()
    ensures Numeral("4294967294") && ValueOf("4294967294") == 0xFFFF_FFFE
  {
    hide ValueOf, Pow10;
    LastDigits();
    Prepend('9', "67294", 100000);
    Prepend('4', "967294", 1000000);
    Prepend('9', "4967294", 10000000);
    Prepend('2', "94967294", 100000000);
    Prepend('4', "294967294", 1000000000);
    assert ['9'] + "67294" == "967294" && ['4'] + "967294" == "4967294" && ['9'] + "4967294" == "94967294";
    assert ['2'] + "94967294" == "294967294" && ['4'] + "294967294" == "4294967294";
  }

  lemma LastDigits()
    ensures Digits("67294") && ValueOf("67294") == 67294 && Pow10(5) == 100000
  {
    hide ValueOf, Pow10;
    EmptyNumeral();
    Prepend('4', "", 1);
    Prepend('9', "4", 10);
    Prepend('2', "94", 100);
    Prepend('7', "294", 1000);
    Prepend('6', "7294", 10000);
    assert ['4'] + "" == "4" && ['9'] + "4" == "94" && ['2'] + "94" == "294" && ['7'] + "294" == "7294";
    assert ['6'] + "7294" == "67294";
  }

  lemma EmptyNumeral()
    ensures ValueOf("") == 0 && Pow10(0) == 1
  {
  }

  /** Indices come first and in numeric order. */
  lemma IndicesInOrder(a: string, b: string)
    requires IsIndex(a)
    ensures IsIndex(b) ==> (KeyLeq(a, b) <==> ValueOf(a) <= ValueOf(b))
    ensures !IsIndex(b) ==> KeyLeq(a, b) && !KeyLeq(b, a)
  {
    if IsIndex(b) {
      if |a| < |b| {
        ShorterIsLess(a, b);
      } else if |b| < |a| {
        ShorterIsLess(b, a);
      } else {
        LexIsNumeric(a, b);
      }
    }
  }

  // ---------------------------------------------------------------- canonicalize

  function Insert(m: Member, ms: seq<Member>): seq<Member> {
    if ms == [] then [m]
    else if KeyLeq(m.key, ms[0].key) then [m] + ms
    else [ms[0]] + Insert(m, ms[1..])
  }

  function Sort(ms: seq<Member>): seq<Member> {
    if ms == [] then [] else Insert(ms[0], Sort(ms[1..]))
  }

  function Canonicalize(v: Json): Json
    decreases v, 1
  {
    match v
    case Arr(items) => Arr(seq(|items|, i requires 0 <= i < |items| => Canonicalize(items[i])))
    case Obj(ms) => Obj(Sort(CanonicalMembers(ms)))
    case _ => v
  }

  function CanonicalMembers(ms: seq<Member>): seq<Member>
    decreases ms, 0
  {
    if ms == [] then []
    else if ms[0].key == PROTO then CanonicalMembers(ms[1..])
    else [Member(ms[0].key, Canonicalize(ms[0].value))] + CanonicalMembers(ms[1..])
  }

  // ---------------------------------------------------------------- equality up to key order

  /** The reference relation: the same value up to the order of object members, at every depth. */
  predicate Equivalent(a: Json, b: Json) {
    match (a, b)
    case (Arr(s), Arr(t)) => |s| == |t| && forall i :: 0 <= i < |s| ==> Equivalent(s[i], t[i])
    case (Obj(p), Obj(q)) =>
      && Keys(p) == Keys(q)
      && forall i, j :: 0 <= i < |p| && 0 <= j < |q| && p[i].key == q[j].key ==>
           Equivalent(p[i].value, q[j].value)
    case _ => a == b
  }

  function Keys(ms: seq<Member>): set<string> {
    set i | 0 <= i < |ms| :: ms[i].key
  }

  /** A value in which nothing is lost by the derivation: no member named __proto__, no infinity. */
  predicate Clean(v: Json) {
    match v
    case Num(n) => n.Finite?
    case Arr(items) => forall i :: 0 <= i < |items| ==> Clean(items[i])
    case Obj(ms) => forall i :: 0 <= i < |ms| ==> ms[i].key != PROTO && Clean(ms[i].value)
    case _ => true
  }

  // ---------------------------------------------------------------- sorting

  predicate Sorted(ms: seq<Member>) {
    forall i, j :: 0 <= i < j < |ms| ==> KeyLeq(ms[i].key, ms[j].key) && ms[i].key != ms[j].key
  }

  predicate SameMembers(a: seq<Member>, b: seq<Member>) {
    (forall m :: m in a ==> m in b) && (forall m :: m in b ==> m in a)
  }

  lemma {:induction false} InsertSorts(m: Member, ms: seq<Member>)
    requires Sorted(ms) && forall x :: x in ms ==> x.key != m.key
    ensures Sorted(Insert(m, ms))
    ensures SameMembers(Insert(m, ms), [m] + ms)
  {
    if ms != [] {
      forall x | x in ms ensures KeyLeq(ms[0].key, x.key) {
        KeyOrder(x.key, x.key, x.key);
      }
      if KeyLeq(m.key, ms[0].key) {
        forall x | x in ms ensures KeyLeq(m.key, x.key) {
          KeyOrder(m.key, ms[0].key, x.key);
        }
      } else {
        KeyOrder(m.key, ms[0].key, m.key);
        InsertSorts(m, ms[1..]);
        var r := Insert(m, ms[1..]);
        assert ms == [ms[0]] + ms[1..];
        forall x | x in r ensures KeyLeq(ms[0].key, x.key) && ms[0].key != x.key {
          assert x in [m] + ms[1..];
        }
        forall x ensures x in [ms[0]] + r <==> x in [m] + ms {
          assert x in r <==> x in [m] + ms[1..];
        }
      }
    }
  }

  lemma {:induction false} SortSorts(ms: seq<Member>)
    requires DistinctKeys(ms)
    ensures Sorted(Sort(ms))
    ensures SameMembers(Sort(ms), ms)
  {
    if ms != [] {
      SortSorts(ms[1..]);
      var s := Sort(ms[1..]);
      forall x | x in s ensures x.key != ms[0].key {
        assert x in ms[1..];
      }
      InsertSorts(ms[0], s);
      assert ms == [ms[0]] + ms[1..];
      forall x ensures x in Sort(ms) <==> x in ms {
        assert x in [ms[0]] + s <==> x in [ms[0]] + ms[1..];
      }
    }
  }

  /** A set of members has one sorted arrangement. */
  lemma {:induction false} SortedIsUnique(a: seq<Member>, b: seq<Member>)
    requires Sorted(a) && Sorted(b) && SameMembers(a, b)
    ensures a == b
  {
    if a == [] {
      assert forall i :: 0 <= i < |b| ==> b[i] in b;
    } else {
      assert a[0] in b && b != [] && b[0] in a;
      var j :| 0 <= j < |b| && b[j] == a[0];
      var k :| 0 <= k < |a| && a[k] == b[0];
      KeyOrder(a[0].key, b[0].key, a[0].key);
      assert j == 0;
      forall x ensures x in a[1..] ==> x in b[1..] {
        if x in a[1..] {
          assert x in a && x.key != a[0].key;
          assert x in b;
        }
      }
      forall x ensures x in b[1..] ==> x in a[1..] {
        if x in b[1..] {
          assert x in b && x.key != b[0].key;
          assert x in a;
        }
      }
      SortedIsUnique(a[1..], b[1..]);
      assert a == [a[0]] + a[1..] && b == [b[0]] + b[1..];
    }
  }

  // ---------------------------------------------------------------- canonical form decides equality

  /** What `canonicalize` keeps of an object: each member but __proto__, with its value canonical. */
  lemma {:induction false} CanonicalMembersAre(ms: seq<Member>)
    requires DistinctKeys(ms)
    ensures DistinctKeys(CanonicalMembers(ms))
    ensures forall x :: x in CanonicalMembers(ms) ==>
              x.key != PROTO && exists i :: 0 <= i < |ms| && x == Member(ms[i].key, Canonicalize(ms[i].value))
    ensures forall i :: 0 <= i < |ms| && ms[i].key != PROTO ==>
              Member(ms[i].key, Canonicalize(ms[i].value)) in CanonicalMembers(ms)
  {
    if ms != [] {
      var rest := ms[1..];
      CanonicalMembersAre(rest);
      assert forall i :: 0 <= i < |rest| ==> rest[i] == ms[i + 1];
      forall i | 0 <= i < |ms| && ms[i].key != PROTO
        ensures Member(ms[i].key, Canonicalize(ms[i].value)) in CanonicalMembers(ms)
      {
        if i > 0 { assert ms[i] == rest[i - 1]; }
      }
      forall x | x in CanonicalMembers(ms)
        ensures x.key != PROTO
        ensures exists i :: 0 <= i < |ms| && x == Member(ms[i].key, Canonicalize(ms[i].value))
      {
        if x in CanonicalMembers(rest) {
          var i :| 0 <= i < |rest| && x == Member(rest[i].key, Canonicalize(rest[i].value));
          assert ms[i + 1] == rest[i];
        } else {
          assert x == Member(ms[0].key, Canonicalize(ms[0].value));
        }
      }
    }
  }

  lemma {:induction false} CanonicalObject(ms: seq<Member>)
    requires DistinctKeys(ms)
    ensures Sorted(Canonicalize(Obj(ms)).members)
    ensures forall x :: x in Canonicalize(Obj(ms)).members ==>
              x.key != PROTO && exists i :: 0 <= i < |ms| && x == Member(ms[i].key, Canonicalize(ms[i].value))
    ensures forall i :: 0 <= i < |ms| && ms[i].key != PROTO ==>
              Member(ms[i].key, Canonicalize(ms[i].value)) in Canonicalize(Obj(ms)).members
  {
    CanonicalMembersAre(ms);
    SortSorts(CanonicalMembers(ms));
  }

  lemma CanonicalIncluded(p: seq<Member>, q: seq<Member>)
    requires DistinctKeys(p) && DistinctKeys(q) && Keys(p) <= Keys(q)
    requires forall i, j :: 0 <= i < |p| && 0 <= j < |q| && p[i].key == q[j].key ==>
               Canonicalize(p[i].value) == Canonicalize(q[j].value)
    ensures forall x :: x in Canonicalize(Obj(p)).members ==> x in Canonicalize(Obj(q)).members
  {
    CanonicalObject(p);
    CanonicalObject(q);
    forall x | x in Canonicalize(Obj(p)).members ensures x in Canonicalize(Obj(q)).members {
      var i :| 0 <= i < |p| && x == Member(p[i].key, Canonicalize(p[i].value));
      assert p[i].key in Keys(q);
    }
  }

  lemma {:induction false} EquivalentImpliesCanonicalEqual(a: Json, b: Json)
    requires WellFormed(a) && WellFormed(b) && Clean(a) && Clean(b) && Equivalent(a, b)
    ensures Canonicalize(a) == Canonicalize(b)
    decreases a
  {
    match a
    case Arr(s) =>
      forall i | 0 <= i < |s| ensures Canonicalize(s[i]) == Canonicalize(b.items[i]) {
        EquivalentImpliesCanonicalEqual(s[i], b.items[i]);
      }
    case Obj(p) =>
      var q := b.members;
      CanonicalObject(p);
      CanonicalObject(q);
      forall i, j | 0 <= i < |p| && 0 <= j < |q| && p[i].key == q[j].key
        ensures Canonicalize(p[i].value) == Canonicalize(q[j].value)
      {
        EquivalentImpliesCanonicalEqual(p[i].value, q[j].value);
      }
      CanonicalIncluded(p, q);
      CanonicalIncluded(q, p);
      SortedIsUnique(Canonicalize(a).members, Canonicalize(b).members);
    case _ =>
  }

  lemma CanonicalKeys(p: seq<Member>, q: seq<Member>)
    requires DistinctKeys(p) && DistinctKeys(q) && forall i :: 0 <= i < |p| ==> p[i].key != PROTO
    requires Canonicalize(Obj(p)) == Canonicalize(Obj(q))
    ensures Keys(p) <= Keys(q)
    ensures forall i, j :: 0 <= i < |p| && 0 <= j < |q| && p[i].key == q[j].key ==>
              Canonicalize(p[i].value) == Canonicalize(q[j].value)
  {
    CanonicalObject(p);
    CanonicalObject(q);
    var c := Canonicalize(Obj(p)).members;
    forall i | 0 <= i < |p|
      ensures p[i].key in Keys(q)
      ensures forall j :: 0 <= j < |q| && p[i].key == q[j].key ==> Canonicalize(p[i].value) == Canonicalize(q[j].value)
    {
      var x := Member(p[i].key, Canonicalize(p[i].value));
      assert x in c && x in Canonicalize(Obj(q)).members;
    }
  }

  lemma {:induction false} CanonicalEqualImpliesEquivalent(a: Json, b: Json)
    requires WellFormed(a) && WellFormed(b) && Clean(a) && Clean(b) && Canonicalize(a) == Canonicalize(b)
    ensures Equivalent(a, b)
    decreases a
  {
    match a
    case Arr(s) =>
      var t := b.items;
      forall i | 0 <= i < |s| ensures Equivalent(s[i], t[i]) {
        assert Canonicalize(s[i]) == Canonicalize(a).items[i] == Canonicalize(b).items[i];
        CanonicalEqualImpliesEquivalent(s[i], t[i]);
      }
    case Obj(p) =>
      var q := b.members;
      CanonicalKeys(p, q);
      CanonicalKeys(q, p);
      forall i, j | 0 <= i < |p| && 0 <= j < |q| && p[i].key == q[j].key
        ensures Equivalent(p[i].value, q[j].value)
      {
        CanonicalEqualImpliesEquivalent(p[i].value, q[j].value);
      }
    case _ =>
  }

  /** Canonical forms are equal exactly when the values are equal up to key order. */
  lemma CanonicalDecidesEquivalence(a: Json, b: Json)
    requires WellFormed(a) && WellFormed(b) && Clean(a) && Clean(b)
    ensures Canonicalize(a) == Canonicalize(b) <==> Equivalent(a, b)
  {
    if Equivalent(a, b) { EquivalentImpliesCanonicalEqual(a, b); }
    if Canonicalize(a) == Canonicalize(b) { CanonicalEqualImpliesEquivalent(a, b); }
  }

  lemma {:induction false} CanonicalIsWellFormed(v: Json)
    requires WellFormed(v)
    ensures WellFormed(Canonicalize(v))
    ensures Clean(v) ==> Clean(Canonicalize(v))
  {
    match v
    case Arr(s) =>
      forall i | 0 <= i < |s|
        ensures WellFormed(Canonicalize(s[i])) && (Clean(s[i]) ==> Clean(Canonicalize(s[i])))
      {
        CanonicalIsWellFormed(s[i]);
      }
    case Obj(p) =>
      CanonicalObject(p);
      var c := Canonicalize(v).members;
      forall k | 0 <= k < |c|
        ensures c[k].key != PROTO && WellFormed(c[k].value) && (Clean(v) ==> Clean(c[k].value))
      {
        assert c[k] in c;
        var i :| 0 <= i < |p| && c[k] == Member(p[i].key, Canonicalize(p[i].value));
        CanonicalIsWellFormed(p[i].value);
      }
    case _ =>
  }

  /** `canonicalize` is idempotent on every value `JSON.parse` can build. */
  lemma {:induction false} CanonicalizeIdempotent(v: Json)
    requires WellFormed(v)
    ensures Canonicalize(Canonicalize(v)) == Canonicalize(v)
  {
    match v
    case Arr(s) =>
      forall i | 0 <= i < |s| ensures Canonicalize(Canonicalize(s[i])) == Canonicalize(s[i]) {
        CanonicalizeIdempotent(s[i]);
      }
    case Obj(p) =>
      CanonicalIsWellFormed(v);
      CanonicalObject(p);
      var c := Canonicalize(v).members;
      CanonicalObject(c);
      forall k | 0 <= k < |c|
        ensures c[k].key != PROTO && Canonicalize(c[k].value) == c[k].value
      {
        assert c[k] in c;
        var i :| 0 <= i < |p| && c[k] == Member(p[i].key, Canonicalize(p[i].value));
        CanonicalizeIdempotent(p[i].value);
      }
      SortedIsUnique(Canonicalize(Obj(c)).members, c);
    case _ =>
  }

  /** Canonicalising changes nothing but the order of members. */
  lemma CanonicalizeKeepsMeaning(v: Json)
    requires WellFormed(v) && Clean(v)
    ensures Equivalent(v, Canonicalize(v))
  {
    CanonicalIsWellFormed(v);
    CanonicalizeIdempotent(v);
    CanonicalDecidesEquivalence(v, Canonicalize(v));
  }
}
