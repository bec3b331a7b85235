/**
 The fallback Idempotency-Key of the gateway: gateway/src/idempotency.ts.
 SHA-256 is a parameter; nothing is assumed of it but the length of its hex digest.
 */
module Idempotency {
  import opened Prelude
  import opened CanonicalJson
  import opened JsonText

  /** What the derivation reads from a request. An empty string stands for an absent or empty field,
      which the code treats alike. `body` is None when nothing was parsed. */
  datatype Request = Request(
    verb: string,
    path: string,
    userId: string,
    walletAddress: string,
    authorization: string,
    ip: string,
    body: Option<Json>)

  // ---------------------------------------------------------------- normalizeBody

  function NormalizeBody(body: Option<Json>): string {
    match body
    case None => ""
    case Some(Null) => ""
    case Some(Str(s)) => s
    case Some(v) => Stringify(Canonicalize(v))
  }

  /** What survives of a value: a member named __proto__ is lost when its key is assigned, and an
      infinity is printed as null. */
  function Seen(v: Json): Json
    decreases v, 1
  {
    match v
    case Num(NonFinite(_)) => Null
    case Arr(items) => Arr(seq(|items|, i requires 0 <= i < |items| => Seen(items[i])))
    case Obj(ms) => Obj(SeenMembers(ms))
    case _ => v
  }

  function SeenMembers(ms: seq<Member>): seq<Member>
    decreases ms, 0
  {
    if ms == [] then []
    else if ms[0].key == PROTO then SeenMembers(ms[1..])
    else [Member(ms[0].key, Seen(ms[0].value))] + SeenMembers(ms[1..])
  }

  lemma {:induction false} SeenIsClean(v: Json)
    requires WellFormed(v)
    ensures WellFormed(Seen(v)) && Clean(Seen(v))
    decreases v, 1
  {
    match v
    case Arr(s) =>
      forall i | 0 <= i < |s| ensures WellFormed(Seen(s[i])) && Clean(Seen(s[i])) {
        SeenIsClean(s[i]);
      }
    case Obj(ms) =>
      SeenKeys(ms);
      SeenMembersAreClean(ms);
    case _ =>
  }

  lemma {:induction false} SeenKeys(ms: seq<Member>)
    requires DistinctKeys(ms)
    ensures DistinctKeys(SeenMembers(ms))
    ensures forall m :: m in SeenMembers(ms) ==> m.key in Keys(ms) && m.key != PROTO
  {
    if ms != [] {
      SeenKeys(ms[1..]);
      KeysOfTail(ms);
    }
  }

  lemma {:induction false} SeenMembersAreClean(ms: seq<Member>)
    requires DistinctKeys(ms) && forall i :: 0 <= i < |ms| ==> WellFormed(ms[i].value)
    ensures forall i :: 0 <= i < |SeenMembers(ms)| ==>
              WellFormed(SeenMembers(ms)[i].value) && Clean(SeenMembers(ms)[i].value)
    decreases ms, 0
  {
    if ms != [] {
      SeenIsClean(ms[0].value);
      SeenMembersAreClean(ms[1..]);
    }
  }

  lemma {:induction false} CleanIsKept(v: Json)
    requires Clean(v)
    ensures Seen(v) == v
    decreases v, 1
  {
    match v
    case Arr(s) =>
      forall i | 0 <= i < |s| ensures Seen(s[i]) == s[i] {
        CleanIsKept(s[i]);
      }
    case Obj(ms) => CleanMembersAreKept(ms);
    case _ =>
  }

  lemma {:induction false} CleanMembersAreKept(ms: seq<Member>)
    requires forall i :: 0 <= i < |ms| ==> ms[i].key != PROTO && Clean(ms[i].value)
    ensures SeenMembers(ms) == ms
    decreases ms, 0
  {
    if ms != [] {
      CleanIsKept(ms[0].value);
      CleanMembersAreKept(ms[1..]);
    }
  }

  lemma KeysOfTail(ms: seq<Member>)
    requires ms != [] && DistinctKeys(ms)
    ensures Keys(ms[1..]) <= Keys(ms) && ms[0].key in Keys(ms) && ms[0].key !in Keys(ms[1..])
  {
    var rest := ms[1..];
    forall k | k in Keys(rest) ensures k in Keys(ms) && k != ms[0].key {
      var i :| 0 <= i < |rest| && rest[i].key == k;
      assert ms[i + 1].key == k;
    }
  }

  // The text of the canonical form depends only on what survives. Sorting looks at keys alone, so it
  // commutes with the erasure of the values.

  lemma {:induction false} InsertCommutes(m: Member, ms: seq<Member>)
    requires m.key != PROTO && forall x :: x in ms ==> x.key != PROTO
    ensures SeenMembers(Insert(m, ms)) == Insert(Member(m.key, Seen(m.value)), SeenMembers(ms))
    ensures forall x :: x in Insert(m, ms) ==> x.key != PROTO
  {
    if ms != [] {
      assert ms[0] in ms;
      if KeyLeq(m.key, ms[0].key) {
        assert ([m] + ms)[1..] == ms;
      } else {
        InsertCommutes(m, ms[1..]);
        assert ([ms[0]] + Insert(m, ms[1..]))[1..] == Insert(m, ms[1..]);
        var sm := SeenMembers(ms);
        assert sm[1..] == SeenMembers(ms[1..]);
      }
    } else {
      assert [m][1..] == [];
    }
  }

  lemma {:induction false} SortCommutes(ms: seq<Member>)
    requires forall x :: x in ms ==> x.key != PROTO
    ensures SeenMembers(Sort(ms)) == Sort(SeenMembers(ms))
    ensures forall x :: x in Sort(ms) ==> x.key != PROTO
  {
    if ms != [] {
      assert ms[0] in ms;
      SortCommutes(ms[1..]);
      InsertCommutes(ms[0], Sort(ms[1..]));
      assert SeenMembers(ms)[1..] == SeenMembers(ms[1..]);
    }
  }

  lemma {:induction false} SeenCommutes(v: Json)
    ensures Seen(Canonicalize(v)) == Canonicalize(Seen(v))
    decreases v, 1
  {
    match v
    case Arr(s) =>
      forall i | 0 <= i < |s| ensures Seen(Canonicalize(s[i])) == Canonicalize(Seen(s[i])) {
        SeenCommutes(s[i]);
      }
    case Obj(ms) =>
      SeenMembersCommute(ms);
      SortCommutes(CanonicalMembers(ms));
    case _ =>
  }

  lemma {:induction false} SeenMembersCommute(ms: seq<Member>)
    ensures SeenMembers(CanonicalMembers(ms)) == CanonicalMembers(SeenMembers(ms))
    ensures forall x :: x in CanonicalMembers(ms) ==> x.key != PROTO
    decreases ms, 0
  {
    if ms != [] {
      SeenCommutes(ms[0].value);
      SeenMembersCommute(ms[1..]);
      if ms[0].key != PROTO {
        assert CanonicalMembers(ms)[1..] == CanonicalMembers(ms[1..]);
        assert SeenMembers(ms)[1..] == SeenMembers(ms[1..]);
      }
    }
  }

  predicate NoProto(v: Json) {
    match v
    case Arr(items) => forall i :: 0 <= i < |items| ==> NoProto(items[i])
    case Obj(ms) => forall i :: 0 <= i < |ms| ==> ms[i].key != PROTO && NoProto(ms[i].value)
    case _ => true
  }

  lemma {:induction false} CanonicalHasNoProto(v: Json)
    requires WellFormed(v)
    ensures NoProto(Canonicalize(v))
  {
    match v
    case Arr(s) =>
      forall i | 0 <= i < |s| ensures NoProto(Canonicalize(s[i])) {
        CanonicalHasNoProto(s[i]);
      }
    case Obj(p) =>
      CanonicalObject(p);
      var c := Canonicalize(v).members;
      forall k | 0 <= k < |c| ensures c[k].key != PROTO && NoProto(c[k].value) {
        assert c[k] in c;
        var i :| 0 <= i < |p| && c[k] == Member(p[i].key, Canonicalize(p[i].value));
        CanonicalHasNoProto(p[i].value);
      }
    case _ =>
  }

  lemma {:induction false} WriteSeen(v: Json, x: string)
    requires NoProto(v)
    ensures Write(v, x) == Write(Seen(v), x)
    decreases v, 2
  {
    match v
    case Arr(s) =>
      if s != [] {
        WriteSeen(s[0], WriteItems(s[1..], x));
        WriteItemsSeen(s[1..], x);
        assert Seen(v).items[1..] == Seen(Arr(s[1..])).items;
      }
    case Obj(p) =>
      if p != [] {
        WriteMemberSeen(p[0], WriteMembers(p[1..], x));
        WriteMembersSeen(p[1..], x);
        assert SeenMembers(p)[1..] == SeenMembers(p[1..]);
      }
    case _ =>
  }

  lemma {:induction false} WriteItemsSeen(s: seq<Json>, x: string)
    requires forall i :: 0 <= i < |s| ==> NoProto(s[i])
    ensures WriteItems(s, x) == WriteItems(Seen(Arr(s)).items, x)
    decreases s, 0
  {
    if s != [] {
      WriteSeen(s[0], WriteItems(s[1..], x));
      WriteItemsSeen(s[1..], x);
      assert Seen(Arr(s)).items[1..] == Seen(Arr(s[1..])).items;
    }
  }

  lemma {:induction false} WriteMemberSeen(m: Member, x: string)
    requires NoProto(m.value)
    ensures WriteMember(m, x) == WriteMember(Member(m.key, Seen(m.value)), x)
    decreases m, 3
  {
    WriteSeen(m.value, x);
  }

  lemma {:induction false} WriteMembersSeen(p: seq<Member>, x: string)
    requires forall i :: 0 <= i < |p| ==> p[i].key != PROTO && NoProto(p[i].value)
    ensures WriteMembers(p, x) == WriteMembers(SeenMembers(p), x)
    decreases p, 0
  {
    if p != [] {
      WriteMemberSeen(p[0], WriteMembers(p[1..], x));
      WriteMembersSeen(p[1..], x);
      assert SeenMembers(p)[1..] == SeenMembers(p[1..]);
    }
  }

  lemma {:induction false} CleanIsPrintable(v: Json)
    requires WellFormed(v) && Clean(v)
    ensures Printable(v)
  {
    match v
    case Arr(s) =>
      forall i | 0 <= i < |s| ensures Printable(s[i]) { CleanIsPrintable(s[i]); }
    case Obj(ms) =>
      forall i | 0 <= i < |ms| ensures Printable(ms[i].value) { CleanIsPrintable(ms[i].value); }
    case _ =>
  }

  /** A body that is hashed as JSON text rather than as it is. */
  predicate Structured(v: Json) {
    !v.Null? && !v.Str?
  }

  /** Two parsed bodies have the same normalised text exactly when what survives of them is equal up to
      key order. */
  lemma NormalizedBodyDecides(a: Json, b: Json)
    requires WellFormed(a) && WellFormed(b) && Structured(a) && Structured(b)
    ensures NormalizeBody(Some(a)) == NormalizeBody(Some(b)) <==> Equivalent(Seen(a), Seen(b))
  {
    CanonicalHasNoProto(a);
    CanonicalHasNoProto(b);
    WriteSeen(Canonicalize(a), "");
    WriteSeen(Canonicalize(b), "");
    SeenCommutes(a);
    SeenCommutes(b);
    SeenIsClean(a);
    SeenIsClean(b);
    CanonicalIsWellFormed(Seen(a));
    CanonicalIsWellFormed(Seen(b));
    CleanIsPrintable(Canonicalize(Seen(a)));
    CleanIsPrintable(Canonicalize(Seen(b)));
    StringifyInjective(Canonicalize(Seen(a)), Canonicalize(Seen(b)));
    CanonicalDecidesEquivalence(Seen(a), Seen(b));
  }

  /** Where nothing is lost, the module's promise holds as written: the same text for logically equal
      bodies and different texts for structurally different ones. */
  lemma NormalizedBodyDecidesClean(a: Json, b: Json)
    requires WellFormed(a) && WellFormed(b) && Structured(a) && Structured(b) && Clean(a) && Clean(b)
    ensures NormalizeBody(Some(a)) == NormalizeBody(Some(b)) <==> Equivalent(a, b)
  {
    NormalizedBodyDecides(a, b);
    CleanIsKept(a);
    CleanIsKept(b);
  }

  // Structurally different bodies that share a text, one for each way in which something is lost.

  /** {"a":1e999} and {"a":null}. */
  lemma InfinityReadsAsNull()
    ensures var a, b := Obj([Member("a", Num(NonFinite(false)))]), Obj([Member("a", Null)]);
            !Equivalent(a, b) && NormalizeBody(Some(a)) == NormalizeBody(Some(b))
  {
    var p, q := [Member("a", Num(NonFinite(false)))], [Member("a", Null)];
    assert p[0].key == q[0].key && !Equivalent(p[0].value, q[0].value);
    assert p[1..] == [] && q[1..] == [];
    assert SeenMembers(p) == q == SeenMembers(q);
    EquivalentReflexive(Obj(q));
    NormalizedBodyDecides(Obj(p), Obj(q));
  }

  /** {"__proto__":1} and {}. */
  lemma ProtoMemberIsLost()
    ensures var a, b := Obj([Member("__proto__", Num(Finite("1")))]), Obj([]);
            !Equivalent(a, b) && NormalizeBody(Some(a)) == NormalizeBody(Some(b))
  {
    var p := [Member(PROTO, Num(Finite("1")))];
    assert p[0].key in Keys(p) && PROTO !in Keys([]);
    assert p[1..] == [] && CanonicalMembers(p) == [];
  }

  /** A body that is the text "[]", which takes a parser of text bodies, and a body that is the empty array. */
  lemma TextBodyReadsAsJson()
    ensures var a, b := Str("[]"), Arr([]);
            !Equivalent(a, b) && NormalizeBody(Some(a)) == NormalizeBody(Some(b))
  {
    assert NormalizeBody(Some(Arr([]))) == "[]";
  }

  lemma {:induction false} EquivalentReflexive(v: Json)
    requires WellFormed(v)
    ensures Equivalent(v, v)
  {
    match v
    case Arr(s) => forall i | 0 <= i < |s| ensures Equivalent(s[i], s[i]) { EquivalentReflexive(s[i]); }
    case Obj(ms) =>
      forall i, j | 0 <= i < |ms| && 0 <= j < |ms| && ms[i].key == ms[j].key
        ensures Equivalent(ms[i].value, ms[j].value)
      {
        EquivalentReflexive(ms[i].value);
      }
    case _ =>
  }

  // ---------------------------------------------------------------- the canonical request

  function UpperChar(c: char): char {
    if 'a' <= c <= 'z' then 'A' + (c - 'a') else c
  }

  /** `toUpperCase` on an HTTP verb, which is an ASCII token. */
  function Upper(s: string): string {
    seq(|s|, i requires 0 <= i < |s| => UpperChar(s[i]))
  }

  /** One character, or one ASCII letter in two cases. */
  predicate SameLetter(a: char, b: char) {
    || a == b
    || ('a' <= a <= 'z' && a as int == b as int + 32)
    || ('a' <= b <= 'z' && b as int == a as int + 32)
  }

  predicate SameVerb(a: string, b: string) {
    |a| == |b| && forall i :: 0 <= i < |a| ==> SameLetter(a[i], b[i])
  }

  /** Upper case keeps all of a verb but the case of its letters. */
  lemma UpperMeans(a: string, b: string)
    ensures Upper(a) == Upper(b) <==> SameVerb(a, b)
    ensures SameVerb(a, Upper(a)) && forall c :: c in Upper(a) ==> !('a' <= c <= 'z')
  {
    assert |Upper(a)| == |a| && |Upper(b)| == |b|;
    if Upper(a) == Upper(b) {
      forall i | 0 <= i < |a| ensures SameLetter(a[i], b[i]) { assert Upper(a)[i] == Upper(b)[i]; }
    }
  }

  /** What may identify the caller, in order of preference. */
  function Identifiers(r: Request): seq<string> { [r.userId, r.walletAddress, r.authorization, r.ip] }

  /** The first identifier that is not empty, if there is one. */
  function CallerIdentity(r: Request): (id: string)
    ensures forall k :: 0 <= k < 4 && Identifiers(r)[k] != "" ==>
              id == Identifiers(r)[k] || exists j :: 0 <= j < k && Identifiers(r)[j] != ""
    ensures id == "" <==> forall k :: 0 <= k < 4 ==> Identifiers(r)[k] == ""
  {
    var ids := Identifiers(r);
    assert ids[0] == r.userId && ids[1] == r.walletAddress && ids[2] == r.authorization && ids[3] == r.ip;
    if r.userId != "" then r.userId
    else if r.walletAddress != "" then r.walletAddress
    else if r.authorization != "" then r.authorization
    else r.ip
  }

  function CanonicalRequest(r: Request): string {
    Upper(r.verb) + "\n" + r.path + "\n" + CallerIdentity(r) + "\n" + NormalizeBody(r.body)
  }

  predicate OneLine(s: string) {
    forall i :: 0 <= i < |s| ==> s[i] != '\n'
  }

  predicate OneLineHead(r: Request) {
    OneLine(r.verb) && OneLine(r.path) && OneLine(CallerIdentity(r))
  }

  lemma {:induction false} SplitLine(s: string, t: string, x: string, y: string)
    requires OneLine(s) && OneLine(t) && s + ['\n'] + x == t + ['\n'] + y
    ensures s == t && x == y
  {
    var u, w := s + ['\n'] + x, t + ['\n'] + y;
    assert u[|s|] == '\n' && w[|t|] == '\n';
    assert forall i :: 0 <= i < |s| ==> u[i] == s[i];
    assert forall i :: 0 <= i < |t| ==> w[i] == t[i];
    assert |s| == |t|;
    assert s == u[..|s|] == t;
    assert x == u[|s| + 1..] == y;
  }

  lemma CanonicalRequestInjective(p: Request, q: Request)
    requires OneLineHead(p) && OneLineHead(q)
    ensures CanonicalRequest(p) == CanonicalRequest(q) <==>
              && SameVerb(p.verb, q.verb) && p.path == q.path
              && CallerIdentity(p) == CallerIdentity(q) && NormalizeBody(p.body) == NormalizeBody(q.body)
  {
    var p3, q3 := NormalizeBody(p.body), NormalizeBody(q.body);
    var p2, q2 := CallerIdentity(p) + ['\n'] + p3, CallerIdentity(q) + ['\n'] + q3;
    var p1, q1 := p.path + ['\n'] + p2, q.path + ['\n'] + q2;
    UpperMeans(p.verb, q.verb);
    assert CanonicalRequest(p) == Upper(p.verb) + ['\n'] + p1;
    assert CanonicalRequest(q) == Upper(q.verb) + ['\n'] + q1;
    if CanonicalRequest(p) == CanonicalRequest(q) {
      SplitLine(Upper(p.verb), Upper(q.verb), p1, q1);
      SplitLine(p.path, q.path, p2, q2);
      SplitLine(CallerIdentity(p), CallerIdentity(q), p3, q3);
    }
  }

  predicate SameHead(p: Request, q: Request) {
    SameVerb(p.verb, q.verb) && p.path == q.path && CallerIdentity(p) == CallerIdentity(q)
  }

  predicate IsJson(body: Option<Json>) { body.Some? && Structured(body.value) }

  /** What a body that is not JSON contributes. */
  function PlainText(body: Option<Json>): string {
    if body.Some? && body.value.Str? then body.value.s else ""
  }

  /** JSON bodies are the same up to key order in what survives of them, others as texts; a text and a JSON
      body are never the same. */
  predicate SameBody(a: Option<Json>, b: Option<Json>) {
    && (IsJson(a) <==> IsJson(b))
    && (if IsJson(a) && IsJson(b) then Equivalent(Seen(a.value), Seen(b.value)) else PlainText(a) == PlainText(b))
  }

  /** The same logical operation, as the module comment means it. */
  predicate SameOperation(p: Request, q: Request) { SameHead(p, q) && SameBody(p.body, q.body) }

  /** The body of `p` is a text, namely the canonical text of the JSON body of `q`. */
  predicate SpellsOut(p: Request, q: Request) {
    SameHead(p, q) && IsJson(q.body) && p.body == Some(Str(Stringify(Canonicalize(q.body.value))))
  }

  predicate ParsedBody(r: Request) { r.body.Some? ==> WellFormed(r.body.value) }

  lemma JsonTextNotEmpty(v: Json)
    requires WellFormed(v) && Structured(v)
    ensures Stringify(Canonicalize(v)) != ""
  {
    match v
    case Num(n) =>
    case _ =>
  }

  /** The text that is hashed is unambiguous for every kind of body, absent ones included: two requests have
      the same one exactly when they are the same logical operation, or one spells out the JSON of the other. */
  lemma PreHashUnambiguous(p: Request, q: Request)
    requires OneLineHead(p) && OneLineHead(q) && ParsedBody(p) && ParsedBody(q)
    ensures CanonicalRequest(p) == CanonicalRequest(q) <==>
              SameOperation(p, q) || SpellsOut(p, q) || SpellsOut(q, p)
  {
    CanonicalRequestInjective(p, q);
    if IsJson(p.body) { JsonTextNotEmpty(p.body.value); }
    if IsJson(q.body) { JsonTextNotEmpty(q.body.value); }
    if IsJson(p.body) && IsJson(q.body) { NormalizedBodyDecides(p.body.value, q.body.value); }
  }

  /** Whatever else they carry, two requests that change things in different ways never share the text. */
  lemma MutatingVerbsApart(p: Request, q: Request)
    requires OneLineHead(p) && OneLineHead(q) && p.verb != q.verb
    requires {p.verb, q.verb} <= {"POST", "PUT", "PATCH", "DELETE"}
    ensures CanonicalRequest(p) != CanonicalRequest(q)
  {
    CanonicalRequestInjective(p, q);
  }

  /** The four lines, in order. An absent, null or empty body contributes nothing, a text contributes itself. */
  lemma CanonicalRequestLines(p: Request, text: string)
    requires p.verb == "POST" && p.path == "/tokens" && p.userId == "u1"
    ensures p.body in {None, Some(Null)} ==> CanonicalRequest(p) == "POST\n/tokens\nu1\n"
    ensures p.body == Some(Str(text)) ==> CanonicalRequest(p) == "POST\n/tokens\nu1\n" + text
  {
    assert Upper("POST") == "POST";
  }

  /** Without the one-line condition the join is ambiguous: the newline can move between parts. An HTTP server
      hands on no path with a newline in it; the condition is about the join alone. */
  lemma NewlineMovesBetweenParts()
    ensures var p := Request("POST", "/a\nb", "c", "", "", "", Some(Arr([])));
            var q := Request("POST", "/a", "b\nc", "", "", "", Some(Arr([])));
            CanonicalRequest(p) == CanonicalRequest(q) && !SameOperation(p, q)
  {
    var p := Request("POST", "/a\nb", "c", "", "", "", Some(Arr([])));
    var q := Request("POST", "/a", "b\nc", "", "", "", Some(Arr([])));
    var body := NormalizeBody(Some(Arr([])));
    assert p.path + "\n" + "c" == q.path + "\n" + "b\nc";
    assert CanonicalRequest(p) == Upper("POST") + "\n" + (p.path + "\n" + "c") + "\n" + body;
    assert CanonicalRequest(q) == Upper("POST") + "\n" + (q.path + "\n" + "b\nc") + "\n" + body;
    assert |p.path| != |q.path|;
  }

  // ---------------------------------------------------------------- the key

  function ToUuidShape(hex: string): string
    requires |hex| >= 32
  {
    hex[0..8] + "-" + hex[8..12] + "-" + hex[12..16] + "-" + hex[16..20] + "-" + hex[20..32]
  }

  /** The UUID shape keeps the first 32 hex digits and nothing else. */
  lemma UuidShapeKeeps128Bits(g: string, h: string)
    requires |g| >= 32 && |h| >= 32
    ensures var u := ToUuidShape(g);
            && |u| == 36 && u[8] == u[13] == u[18] == u[23] == '-'
            && u[..8] + u[9..13] + u[14..18] + u[19..23] + u[24..] == g[..32]
    ensures ToUuidShape(g) == ToUuidShape(h) <==> g[..32] == h[..32]
  {
    UuidDigits(g);
    UuidDigits(h);
    assert g[..32] == g[0..8] + g[8..12] + g[12..16] + g[16..20] + g[20..32];
    assert h[..32] == h[0..8] + h[8..12] + h[12..16] + h[16..20] + h[20..32];
    if g[..32] == h[..32] {
      assert g[0..8] == g[..32][0..8] && g[8..12] == g[..32][8..12] && g[12..16] == g[..32][12..16];
      assert g[16..20] == g[..32][16..20] && g[20..32] == g[..32][20..32];
      assert h[0..8] == h[..32][0..8] && h[8..12] == h[..32][8..12] && h[12..16] == h[..32][12..16];
      assert h[16..20] == h[..32][16..20] && h[20..32] == h[..32][20..32];
    }
  }

  lemma UuidDigits(g: string)
    requires |g| >= 32
    ensures var u := ToUuidShape(g);
            && |u| == 36 && u[0..8] == g[0..8] && u[9..13] == g[8..12] && u[14..18] == g[12..16]
            && u[19..23] == g[16..20] && u[24..36] == g[20..32]
  {
  }

  function DeriveKey(sha256: string -> string, r: Request): string
    requires |sha256(CanonicalRequest(r))| == 64
  {
    ToUuidShape(sha256(CanonicalRequest(r)))
  }

  /** The digests of two different texts agree in their first 128 bits. */
  predicate Collide(sha256: string -> string, p: Request, q: Request)
    requires |sha256(CanonicalRequest(p))| == 64 && |sha256(CanonicalRequest(q))| == 64
  {
    && CanonicalRequest(p) != CanonicalRequest(q)
    && sha256(CanonicalRequest(p))[..32] == sha256(CanonicalRequest(q))[..32]
  }

  /** A retry of the same operation gets the same key under every hash function; two different operations
      get the same key only if one spells out the other, or through a collision of digests. */
  lemma KeysCollideOnlyByHash(sha256: string -> string, p: Request, q: Request)
    requires OneLineHead(p) && OneLineHead(q) && ParsedBody(p) && ParsedBody(q)
    requires |sha256(CanonicalRequest(p))| == 64 && |sha256(CanonicalRequest(q))| == 64
    ensures DeriveKey(sha256, p) == DeriveKey(sha256, q) <==>
              SameOperation(p, q) || SpellsOut(p, q) || SpellsOut(q, p) || Collide(sha256, p, q)
  {
    PreHashUnambiguous(p, q);
    UuidShapeKeeps128Bits(sha256(CanonicalRequest(p)), sha256(CanonicalRequest(q)));
  }

  /** Where no parser has run, as in the gateway itself, the body has no part in the key: all requests with
      one verb, path and caller share it, whatever they carry. */
  lemma UnparsedBodiesShareKeys(sha256: string -> string, p: Request, q: Request)
    requires OneLineHead(p) && OneLineHead(q) && p.body.None? && q.body.None?
    requires |sha256(CanonicalRequest(p))| == 64 && |sha256(CanonicalRequest(q))| == 64
    ensures DeriveKey(sha256, p) == DeriveKey(sha256, q) <==> SameHead(p, q) || Collide(sha256, p, q)
  {
    KeysCollideOnlyByHash(sha256, p, q);
  }

  // ---------------------------------------------------------------- the middleware

  const HEADER := "idempotency-key"
  const AUTHORIZATION := "authorization"

  /** The mutable request object the middleware is given. */
  class IncomingRequest {
    const verb: string
    const path: string
    const userId: string
    const walletAddress: string
    const ip: string
    const body: Option<Json>
    var headers: map<string, string>

    constructor (r: Request, headers: map<string, string>)
      ensures this.headers == headers && verb == r.verb && path == r.path && userId == r.userId
      ensures walletAddress == r.walletAddress && ip == r.ip && body == r.body
    {
      verb, path, userId, walletAddress := r.verb, r.path, r.userId, r.walletAddress;
      ip, body, this.headers := r.ip, r.body, headers;
    }

    function Read(): Request
      reads this
    {
      Request(verb, path, userId, walletAddress,
              if AUTHORIZATION in headers then headers[AUTHORIZATION] else "", ip, body)
    }

    predicate Mutating() {
      verb == "POST" || verb == "PUT" || verb == "PATCH" || verb == "DELETE"
    }

    predicate HasKey()
      reads this
    {
      HEADER in headers && headers[HEADER] != ""
    }

    /** Sets the key on a mutating request that has none; touches nothing else. What the derivation
        reads is left as it was, so running the middleware again changes nothing. */
    method ApplyMiddleware(sha256: string -> string)
      requires |sha256(CanonicalRequest(Read()))| == 64
      modifies this
      ensures Read() == old(Read())
      ensures var given := "idempotency-key" in old(headers) && old(headers)["idempotency-key"] != "";
              if verb in {"POST", "PUT", "PATCH", "DELETE"} && !given
              then headers == old(headers)["idempotency-key" := DeriveKey(sha256, Read())]
                   && headers["idempotency-key"] != ""
              else headers == old(headers)
    {
      if !Mutating() { return; }
      if HEADER in headers && headers[HEADER] != "" { return; }
      var key := DeriveKey(sha256, Read());
      UuidDigits(sha256(CanonicalRequest(Read())));
      headers := headers[HEADER := key];
    }
  }
}
