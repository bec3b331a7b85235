/**
 API keys with two-phase rotation: backend/src/auth/apiKey.ts. Expired rotations are cleaned up
 lazily, by a scan that may return early; the model is proved against a specification that keeps no
 such state. SHA-256 is an injective constructor; generated keys and ids are parameters, required to
 be fresh.
 */
module ApiKeys {
  import opened Prelude

  const KEY_PREFIX := "nlk_"
  const MAX_GRACE_MS := 30 * 24 * 60 * 60 * 1000

  datatype Status = Active | Rotating | Revoked
  datatype Hash = Sha256(raw: string)

  datatype Record = Record(
    id: string,
    name: string,
    keyHash: Hash,
    prevKeyHash: Option<Hash>,
    rotationStartedAt: Option<int>,
    graceEndsAt: Option<int>,
    ownerId: Option<string>,
    ownerEmail: Option<string>,
    status: Status,
    createdAt: int,
    lastUsedAt: Option<int>)

  datatype Error = NameRequired | NotFound | KeyRevoked | GraceOutOfRange | NotRotating

  // ---------------------------------------------------------------- specification

  /** The successful operations on a store, oldest first. Validation is not one of them. */
  datatype Event =
    | Create(id: string, raw: string)
    | Rotate(id: string, raw: string, now: int, graceMs: int)
    | Commit(id: string)
    | Revoke(id: string)

  /** A key as its owner sees it: the current raw key, and the key replaced by the latest rotation
      that has not been committed, with the last moment at which it is good. */
  datatype Key = Key(id: string, current: string, previous: Option<Grace>, revoked: bool)
  datatype Grace = Grace(raw: string, until: int)

  function KeyIds(s: seq<Key>): seq<string> {
    seq(|s|, i requires 0 <= i < |s| => s[i].id)
  }

  function Changed(k: Key, e: Event): Key {
    match e
    case Create(_, _) => k
    case Rotate(_, raw, now, graceMs) =>
      k.(current := raw, previous := if graceMs == 0 then None else Some(Grace(k.current, now + graceMs)))
    case Commit(_) => k.(previous := None)
    case Revoke(_) => k.(previous := None, revoked := true)
  }

  function After(s: seq<Key>, e: Event): seq<Key> {
    if e.Create? then s + [Key(e.id, e.raw, None, false)]
    else
      var i := IndexOf(KeyIds(s), e.id);
      if i < |s| then s[i := Changed(s[i], e)] else s
  }

  /** The keys after a log of operations, in order of creation. */
  function Spec(log: seq<Event>): seq<Key> {
    if log == [] then [] else After(Spec(log[..|log| - 1]), log[|log| - 1])
  }

  /** The acceptance rule, with no trace of when anything was cleaned up. */
  predicate Accepts(k: Key, raw: string, now: int) {
    && !k.revoked
    && (raw == k.current || (k.previous.Some? && raw == k.previous.value.raw && now <= k.previous.value.until))
  }

  function NewKeys(e: Event): set<string> {
    if e.Create? || e.Rotate? then {e.raw} else {}
  }

  function Issued(log: seq<Event>): set<string> {
    if log == [] then {} else Issued(log[..|log| - 1]) + NewKeys(log[|log| - 1])
  }

  predicate HasPrefix(raw: string) { KEY_PREFIX <= raw }

  /** A newly generated key. */
  predicate Fresh(log: seq<Event>, raw: string) { HasPrefix(raw) && raw !in Issued(log) }

  predicate ValidGrace(graceMs: int) { 0 <= graceMs <= MAX_GRACE_MS }

  predicate LegalEvent(log: seq<Event>, e: Event) {
    var s := Spec(log);
    var i := IndexOf(KeyIds(s), e.id);
    match e
    case Create(_, raw) => i == |s| && Fresh(log, raw)
    case Rotate(_, raw, _, graceMs) => i < |s| && !s[i].revoked && Fresh(log, raw) && ValidGrace(graceMs)
    case Commit(_) => i < |s| && !s[i].revoked && s[i].previous.Some?
    case Revoke(_) => i < |s|
  }

  predicate Legal(log: seq<Event>) {
    log == [] || (Legal(log[..|log| - 1]) && LegalEvent(log[..|log| - 1], log[|log| - 1]))
  }

  predicate Holds(k: Key, raw: string) {
    raw == k.current || (k.previous.Some? && raw == k.previous.value.raw)
  }

  /** The ids are distinct, and so are the keys held by all records, current and previous. */
  ghost predicate AllDistinct(s: seq<Key>) {
    && (forall i, j :: 0 <= i < j < |s| ==> s[i].id != s[j].id)
    && (forall i, j, raw :: 0 <= i < |s| && 0 <= j < |s| && Holds(s[i], raw) && Holds(s[j], raw) ==> i == j)
    && (forall i :: 0 <= i < |s| && s[i].previous.Some? ==> s[i].current != s[i].previous.value.raw)
  }

  ghost predicate HeldAreIssued(s: seq<Key>, issued: set<string>) {
    && (forall i, raw :: 0 <= i < |s| && Holds(s[i], raw) ==> raw in issued)
    && (forall raw :: raw in issued ==> HasPrefix(raw))
  }

  lemma ChangeKeepsDistinct(s: seq<Key>, issued: set<string>, i: nat, e: Event)
    requires AllDistinct(s) && HeldAreIssued(s, issued) && i < |s| && !e.Create?
    requires e.Rotate? ==> HasPrefix(e.raw) && e.raw !in issued
    ensures AllDistinct(s[i := Changed(s[i], e)])
    ensures HeldAreIssued(s[i := Changed(s[i], e)], issued + NewKeys(e))
  {
    var t := s[i := Changed(s[i], e)];
    assert forall raw :: Holds(t[i], raw) ==> Holds(s[i], raw) || raw in NewKeys(e);
    assert Holds(s[i], s[i].current);
    forall j, k, raw | 0 <= j < |t| && 0 <= k < |t| && Holds(t[j], raw) && Holds(t[k], raw)
      ensures j == k
    {
      if raw in issued { assert Holds(s[j], raw) && Holds(s[k], raw); }
    }
  }

  lemma CreateKeepsDistinct(s: seq<Key>, issued: set<string>, id: string, raw: string)
    requires AllDistinct(s) && HeldAreIssued(s, issued) && id !in KeyIds(s)
    requires HasPrefix(raw) && raw !in issued
    ensures AllDistinct(s + [Key(id, raw, None, false)])
    ensures HeldAreIssued(s + [Key(id, raw, None, false)], issued + {raw})
  {
    assert forall i :: 0 <= i < |s| ==> KeyIds(s)[i] == s[i].id;
  }

  lemma {:induction false} LegalKeysDistinct(log: seq<Event>)
    requires Legal(log)
    ensures AllDistinct(Spec(log)) && HeldAreIssued(Spec(log), Issued(log))
  {
    if log != [] {
      var front, e := log[..|log| - 1], log[|log| - 1];
      LegalKeysDistinct(front);
      var s := Spec(front);
      if e.Create? {
        CreateKeepsDistinct(s, Issued(front), e.id, e.raw);
      } else {
        ChangeKeepsDistinct(s, Issued(front), IndexOf(KeyIds(s), e.id), e);
      }
    }
  }

  /** At most one record can match a raw key at any time, and only if the key has the prefix. */
  lemma AtMostOneMatch(log: seq<Event>, i: nat, j: nat, raw: string, now: int)
    requires Legal(log) && i < |Spec(log)| && j < |Spec(log)|
    requires Accepts(Spec(log)[i], raw, now) && Accepts(Spec(log)[j], raw, now)
    ensures i == j && HasPrefix(raw)
  {
    LegalKeysDistinct(log);
    assert Holds(Spec(log)[i], raw) && Holds(Spec(log)[j], raw);
  }

  lemma UnprefixedRejected(log: seq<Event>, raw: string, now: int)
    requires Legal(log) && !HasPrefix(raw)
    ensures forall i :: 0 <= i < |Spec(log)| ==> !Accepts(Spec(log)[i], raw, now)
  {
    LegalKeysDistinct(log);
    assert forall i :: 0 <= i < |Spec(log)| && Accepts(Spec(log)[i], raw, now) ==> Holds(Spec(log)[i], raw);
  }

  lemma LogExtends(log: seq<Event>, e: Event)
    ensures Legal(log) && LegalEvent(log, e) ==> Legal(log + [e])
    ensures Spec(log + [e]) == After(Spec(log), e) && Issued(log + [e]) == Issued(log) + NewKeys(e)
    ensures Legal(log + [e]) ==> Legal(log) && LegalEvent(log, e)
  {
    assert (log + [e])[..|log|] == log;
  }

  /** The last operation on an id. */
  function Last(log: seq<Event>, id: string): Option<Event> {
    if log == [] then None
    else if log[|log| - 1].id == id then Some(log[|log| - 1])
    else Last(log[..|log| - 1], id)
  }

  /** The log before the last operation on an id. */
  function Before(log: seq<Event>, id: string): seq<Event> {
    if log == [] then []
    else if log[|log| - 1].id == id then log[..|log| - 1]
    else Before(log[..|log| - 1], id)
  }

  /** The raw key last issued for an id, by its creation or by a rotation. */
  function LastIssued(log: seq<Event>, id: string): Option<string> {
    if log == [] then None
    else
      var e := log[|log| - 1];
      if e.id == id && (e.Create? || e.Rotate?) then Some(e.raw) else LastIssued(log[..|log| - 1], id)
  }

  /** What the log says of a raw key: it is good while it is the one last issued for an id that has not
      been revoked last, or was the one last issued before a rotation that is the last operation on the
      id, and whose grace period, if there is one, is not over. */
  predicate LogAccepts(log: seq<Event>, id: string, raw: string, now: int) {
    match Last(log, id)
    case None => false
    case Some(Revoke(_)) => false
    case Some(e) =>
      || LastIssued(log, id) == Some(raw)
      || (e.Rotate? && e.graceMs > 0 && LastIssued(Before(log, id), id) == Some(raw) && now <= e.now + e.graceMs)
  }

  lemma SpecGrows(front: seq<Event>, e: Event, i: nat)
    requires Legal(front + [e]) && i < |Spec(front + [e])|
    ensures i < |Spec(front)| && Spec(front)[i].id != e.id ==> Spec(front + [e])[i] == Spec(front)[i]
    ensures i < |Spec(front)| && Spec(front)[i].id == e.id ==>
              && !e.Create? && IndexOf(KeyIds(Spec(front)), e.id) == i
              && Spec(front + [e])[i] == Changed(Spec(front)[i], e)
    ensures i >= |Spec(front)| ==> e.Create? && Spec(front + [e])[i] == Key(e.id, e.raw, None, false)
  {
    LogExtends(front, e);
    LegalKeysDistinct(front);
    var s := Spec(front);
    var j := IndexOf(KeyIds(s), e.id);
    assert i < |s| ==> KeyIds(s)[i] == s[i].id;
    assert j < |s| ==> KeyIds(s)[j] == s[j].id;
  }

  lemma {:induction false} CurrentIsLastIssued(log: seq<Event>, i: nat)
    requires Legal(log) && i < |Spec(log)|
    ensures LastIssued(log, Spec(log)[i].id) == Some(Spec(log)[i].current)
  {
    var front, e := log[..|log| - 1], log[|log| - 1];
    assert log == front + [e];
    SpecGrows(front, e, i);
    if i < |Spec(front)| { CurrentIsLastIssued(front, i); }
  }

  lemma OtherOperation(front: seq<Event>, e: Event, id: string, raw: string, now: int)
    requires e.id != id
    ensures LogAccepts(front + [e], id, raw, now) == LogAccepts(front, id, raw, now)
  {
    assert (front + [e])[..|front|] == front;
  }

  lemma OwnOperation(front: seq<Event>, e: Event, i: nat, raw: string, now: int)
    requires Legal(front + [e]) && i < |Spec(front + [e])| && Spec(front + [e])[i].id == e.id
    ensures Accepts(Spec(front + [e])[i], raw, now) <==> LogAccepts(front + [e], e.id, raw, now)
  {
    SpecGrows(front, e, i);
    LogExtends(front, e);
    CurrentIsLastIssued(front + [e], i);
    assert (front + [e])[..|front|] == front;
    if i < |Spec(front)| { CurrentIsLastIssued(front, i); }
  }

  /** The specification accepts a raw key exactly when the log does. */
  lemma {:induction false} LastOperationDecides(log: seq<Event>, i: nat, raw: string, now: int)
    requires Legal(log) && i < |Spec(log)|
    ensures Accepts(Spec(log)[i], raw, now) <==> LogAccepts(log, Spec(log)[i].id, raw, now)
  {
    var front, e := log[..|log| - 1], log[|log| - 1];
    assert log == front + [e];
    SpecGrows(front, e, i);
    if Spec(log)[i].id == e.id {
      OwnOperation(front, e, i, raw, now);
    } else {
      LastOperationDecides(front, i, raw, now);
      OtherOperation(front, e, Spec(log)[i].id, raw, now);
    }
  }

  /** Only ids that were created appear in a log. */
  lemma {:induction false} LoggedIdExists(log: seq<Event>, id: string) returns (i: nat)
    requires Legal(log) && Last(log, id).Some?
    ensures i < |Spec(log)| && Spec(log)[i].id == id
  {
    var front, e := log[..|log| - 1], log[|log| - 1];
    assert log == front + [e];
    LogExtends(front, e);
    var s := Spec(front);
    if e.id == id {
      i := IndexOf(KeyIds(s), id);
      assert i < |s| ==> KeyIds(s)[i] == s[i].id;
    } else {
      i := LoggedIdExists(front, id);
    }
  }

  /** Some key of the specification accepts exactly when the log accepts for some id. */
  lemma AcceptedIffLogged(log: seq<Event>, raw: string, now: int)
    requires Legal(log)
    ensures (exists i :: 0 <= i < |Spec(log)| && Accepts(Spec(log)[i], raw, now)) <==>
              (exists id :: LogAccepts(log, id, raw, now))
  {
    forall i | 0 <= i < |Spec(log)| && Accepts(Spec(log)[i], raw, now)
      ensures LogAccepts(log, Spec(log)[i].id, raw, now)
    {
      LastOperationDecides(log, i, raw, now);
    }
    if id :| LogAccepts(log, id, raw, now) {
      var i := LoggedIdExists(log, id);
      LastOperationDecides(log, i, raw, now);
    }
  }

  lemma {:induction false} IssuedIsLogged(log: seq<Event>, id: string)
    requires LastIssued(log, id).Some?
    ensures Last(log, id).Some?
  {
    if log[|log| - 1].id != id { IssuedIsLogged(log[..|log| - 1], id); }
  }

  /** The ids of the specification are those in the log, and a key is revoked exactly when that is the last
      operation on its id. */
  lemma {:induction false} RevokedIffLast(log: seq<Event>, i: nat)
    requires Legal(log) && i < |Spec(log)|
    ensures Last(log, Spec(log)[i].id).Some?
    ensures Spec(log)[i].revoked <==> Last(log, Spec(log)[i].id).value.Revoke?
  {
    var front, e := log[..|log| - 1], log[|log| - 1];
    assert log == front + [e];
    SpecGrows(front, e, i);
    LogExtends(front, e);
    if Spec(log)[i].id != e.id { RevokedIffLast(front, i); }
  }

  lemma KnownIffLogged(log: seq<Event>, id: string)
    requires Legal(log)
    ensures id in KeyIds(Spec(log)) <==> Last(log, id).Some?
  {
    var s := Spec(log);
    if id in KeyIds(s) {
      var i :| 0 <= i < |s| && KeyIds(s)[i] == id;
      CurrentIsLastIssued(log, i);
      IssuedIsLogged(log, id);
    }
    if Last(log, id).Some? {
      var i := LoggedIdExists(log, id);
      assert KeyIds(s)[i] == id;
    }
  }

  /** What a rotation does to the key it replaces: that is good for exactly the grace period. */
  lemma ReplacedGoodUntil(log: seq<Event>, id: string, raw: string, now: int, graceMs: int, t: int)
    requires Legal(log) && Last(log, id).Some? && Fresh(log, raw) && ValidGrace(graceMs)
    ensures LastIssued(log, id).Some?
    ensures LogAccepts(log + [Rotate(id, raw, now, graceMs)], id, LastIssued(log, id).value, t) <==>
              graceMs > 0 && t <= now + graceMs
    ensures LogAccepts(log + [Rotate(id, raw, now, graceMs)], id, raw, t)
  {
    var i := LoggedIdExists(log, id);
    CurrentIsLastIssued(log, i);
    LegalKeysDistinct(log);
    assert Holds(Spec(log)[i], Spec(log)[i].current);
    var e := Rotate(id, raw, now, graceMs);
    assert (log + [e])[..|log|] == log;
  }

  lemma ReplacedIsGood(log: seq<Event>, id: string, raw: string, now: int, graceMs: int)
    requires Legal(log) && Last(log, id).Some? && Fresh(log, raw) && ValidGrace(graceMs)
    ensures LastIssued(log, id).Some?
    ensures forall t :: LogAccepts(log + [Rotate(id, raw, now, graceMs)], id, LastIssued(log, id).value, t) <==>
                          graceMs > 0 && t <= now + graceMs
  {
    ReplacedGoodUntil(log, id, raw, now, graceMs, now);
    forall t
      ensures LogAccepts(log + [Rotate(id, raw, now, graceMs)], id, LastIssued(log, id).value, t) <==>
                graceMs > 0 && t <= now + graceMs
    {
      ReplacedGoodUntil(log, id, raw, now, graceMs, t);
    }
  }

  /** Revocation is final: no key of the record is accepted again, whatever follows. */
  lemma {:induction false} RevokedIsTerminal(log: seq<Event>, tail: seq<Event>, i: nat, raw: string, now: int)
    requires Legal(log + tail) && i < |Spec(log)| && Spec(log)[i].revoked
    ensures i < |Spec(log + tail)| && Spec(log + tail)[i].id == Spec(log)[i].id
    ensures Spec(log + tail)[i].revoked && !Accepts(Spec(log + tail)[i], raw, now)
    decreases |tail|
  {
    if tail == [] {
      assert log + tail == log;
    } else {
      var front, last := tail[..|tail| - 1], tail[|tail| - 1];
      assert log + tail == (log + front) + [last];
      LogExtends(log + front, last);
      RevokedIsTerminal(log, front, i, raw, now);
    }
  }

  /** A key that was dropped, by a later rotation, a commit or a revocation, never comes back. */
  lemma {:induction false} DroppedIsTerminal(log: seq<Event>, tail: seq<Event>, i: nat, raw: string)
    requires Legal(log + tail) && i < |Spec(log)| && raw in Issued(log) && !Holds(Spec(log)[i], raw)
    ensures i < |Spec(log + tail)| && !Holds(Spec(log + tail)[i], raw) && raw in Issued(log + tail)
    decreases |tail|
  {
    if tail == [] {
      assert log + tail == log;
    } else {
      var front, last := tail[..|tail| - 1], tail[|tail| - 1];
      assert log + tail == (log + front) + [last];
      LogExtends(log + front, last);
      DroppedIsTerminal(log, front, i, raw);
    }
  }

  // ---------------------------------------------------------------- the store against the specification

  predicate Clear(r: Record) {
    r.prevKeyHash == None && r.rotationStartedAt == None && r.graceEndsAt == None
  }

  predicate HoldsHash(r: Record, hash: Hash) { r.keyHash == hash || r.prevKeyHash == Some(hash) }

  /** A record stands for a key at a moment: what it has forgotten of an uncommitted rotation had
      already run out. */
  predicate Refines(r: Record, k: Key, clock: int) {
    && r.id == k.id
    && r.keyHash == Sha256(k.current)
    && (r.status == Revoked <==> k.revoked)
    && match r.status
       case Revoked => Clear(r) && k.previous.None?
       case Active => Clear(r) && (k.previous.Some? ==> k.previous.value.until < clock)
       case Rotating =>
         && k.previous.Some?
         && r.prevKeyHash == Some(Sha256(k.previous.value.raw))
         && r.graceEndsAt == Some(k.previous.value.until)
         && r.rotationStartedAt.Some?
         && 1 <= r.graceEndsAt.value - r.rotationStartedAt.value <= MAX_GRACE_MS
  }

  /** The record with no rotation in progress. */
  function Settled(r: Record): Record {
    r.(prevKeyHash := None, rotationStartedAt := None, graceEndsAt := None, status := Active)
  }

  /** The effect of the scan on a record whose grace period is over. */
  function AutoCommit(r: Record, now: int): Record {
    if r.status == Rotating && r.graceEndsAt.Some? && now > r.graceEndsAt.value then Settled(r) else r
  }

  /** What the scan decides on one record is what the specification decides, and cleaning the record up
      keeps it in line with the specification. */
  lemma ScanStep(r: Record, k: Key, raw: string, now: int)
    requires Refines(r, k, now)
    requires k.previous.Some? ==> k.current != k.previous.value.raw
    ensures Refines(AutoCommit(r, now), k, now)
    ensures Accepts(k, raw, now) <==>
              && r.status != Revoked
              && (|| Sha256(raw) == r.keyHash
                  || (r.status == Rotating && now <= r.graceEndsAt.value && r.prevKeyHash == Some(Sha256(raw))))
  {
  }

  /** The record with a new key, and the old one kept for the grace period if there is one. */
  function Replaced(r: Record, rawKey: string, now: int, graceMs: int): Record {
    var renewed := r.(keyHash := Sha256(rawKey));
    if graceMs == 0 then Settled(renewed)
    else renewed.(prevKeyHash := Some(r.keyHash), rotationStartedAt := Some(now),
                  graceEndsAt := Some(now + graceMs), status := Rotating)
  }

  lemma ReplacedRefines(r: Record, k: Key, rawKey: string, now: int, graceMs: int)
    requires Refines(r, k, now) && !k.revoked && ValidGrace(graceMs)
    ensures Refines(Replaced(r, rawKey, now, graceMs), Changed(k, Rotate(k.id, rawKey, now, graceMs)), now)
  {
  }

  function RecordIds(store: seq<Record>): seq<string> {
    seq(|store|, i requires 0 <= i < |store| => store[i].id)
  }

  ghost predicate Consistent(store: seq<Record>, log: seq<Event>, clock: int) {
    && Legal(log)
    && |store| == |Spec(log)|
    && forall i :: 0 <= i < |store| ==> Refines(store[i], Spec(log)[i], clock)
  }

  lemma SameIds(store: seq<Record>, log: seq<Event>, clock: int)
    requires Consistent(store, log, clock)
    ensures RecordIds(store) == KeyIds(Spec(log))
  {
    assert forall i :: 0 <= i < |store| ==> Refines(store[i], Spec(log)[i], clock);
  }

  lemma ClockAdvances(store: seq<Record>, log: seq<Event>, clock: int, now: int)
    requires Consistent(store, log, clock) && clock <= now
    ensures Consistent(store, log, now)
  {
    assert forall i :: 0 <= i < |store| ==> Refines(store[i], Spec(log)[i], clock);
  }

  lemma RecordAdded(store: seq<Record>, log: seq<Event>, clock: int, r: Record, raw: string)
    requires Consistent(store, log, clock) && r.id !in RecordIds(store) && Fresh(log, raw)
    requires Refines(r, Key(r.id, raw, None, false), clock)
    ensures Consistent(store + [r], log + [Create(r.id, raw)], clock)
  {
    SameIds(store, log, clock);
    LogExtends(log, Create(r.id, raw));
  }

  /** One record changes the way one logged operation says. */
  lemma RecordFollows(store: seq<Record>, log: seq<Event>, clock: int, i: nat, r: Record, e: Event)
    requires Consistent(store, log, clock) && i < |store| && i == IndexOf(KeyIds(Spec(log)), e.id)
    requires LegalEvent(log, e) && !e.Create? && Refines(r, Changed(Spec(log)[i], e), clock)
    ensures Consistent(store[i := r], log + [e], clock)
  {
    LogExtends(log, e);
  }

  /** Lazy cleaning shows in one place only: whether a commit succeeds. Two stores with the same operations
      behind them, whatever scans each has seen, can differ in that only when the grace period is over; and
      then a scan does make the difference. */
  lemma CommitSeesCleaning(store: seq<Record>, other: seq<Record>, log: seq<Event>, clock: int, i: nat)
    requires Consistent(store, log, clock) && Consistent(other, log, clock) && i < |store|
    ensures var over := Spec(log)[i].previous.Some? && Spec(log)[i].previous.value.until < clock;
            && ((store[i].status == Rotating) != (other[i].status == Rotating) ==> over)
            && (store[i].status == Rotating && over ==>
                  Consistent(store[i := AutoCommit(store[i], clock)], log, clock)
                  && AutoCommit(store[i], clock).status != Rotating)
  {
    assert Refines(store[i], Spec(log)[i], clock) && Refines(other[i], Spec(log)[i], clock);
  }

  // ---------------------------------------------------------------- names

  predicate IsSpace(c: char) {
    var n := c as int;
    9 <= n <= 13 || n == 32 || n == 0xA0 || n == 0x1680 || 0x2000 <= n <= 0x200A || n == 0x2028
    || n == 0x2029 || n == 0x202F || n == 0x205F || n == 0x3000 || n == 0xFEFF
  }

  function TrimStart(s: string): string {
    if s != [] && IsSpace(s[0]) then TrimStart(s[1..]) else s
  }

  function TrimEnd(s: string): string {
    if s != [] && IsSpace(s[|s| - 1]) then TrimEnd(s[..|s| - 1]) else s
  }

  function Trim(s: string): string { TrimEnd(TrimStart(s)) }

  predicate AllSpace(s: string) { forall i :: 0 <= i < |s| ==> IsSpace(s[i]) }

  lemma {:induction false} TrimStartMeans(s: string) returns (i: nat)
    ensures i <= |s| && AllSpace(s[..i]) && TrimStart(s) == s[i..]
    ensures TrimStart(s) != "" ==> !IsSpace(TrimStart(s)[0])
  {
    i := 0;
    if s != [] && IsSpace(s[0]) {
      var k := TrimStartMeans(s[1..]);
      i := k + 1;
      assert s[..i] == [s[0]] + s[1..][..k] && s[i..] == s[1..][k..];
    }
  }

  lemma {:induction false} TrimEndMeans(s: string) returns (j: nat)
    ensures j <= |s| && AllSpace(s[j..]) && TrimEnd(s) == s[..j]
    ensures TrimEnd(s) != "" ==> !IsSpace(TrimEnd(s)[|TrimEnd(s)| - 1])
  {
    j := |s|;
    if s != [] && IsSpace(s[|s| - 1]) {
      var front := s[..|s| - 1];
      j := TrimEndMeans(front);
      assert s[j..] == front[j..] + [s[|s| - 1]] && s[..j] == front[..j];
    }
  }

  /** The trimmed name is what stands between the white space at both ends; it is empty exactly when there is
      nothing else. */
  lemma TrimMeans(s: string) returns (i: nat, j: nat)
    ensures i <= j <= |s| && AllSpace(s[..i]) && AllSpace(s[j..]) && Trim(s) == s[i..j]
    ensures Trim(s) != "" ==> !IsSpace(s[i]) && !IsSpace(s[j - 1])
    ensures Trim(s) == "" <==> AllSpace(s)
  {
    i := TrimStartMeans(s);
    var t := s[i..];
    var k := TrimEndMeans(t);
    j := i + k;
    assert t[k..] == s[j..] && t[..k] == s[i..j];
    assert s == s[..i] + s[i..j] + s[j..];
    if k > 0 { assert s[i] == t[0] && s[j - 1] == t[k - 1]; }
  }

  /** The blanks and line ends are white space, and no printable ASCII character is. */
  lemma SpaceExamples(c: char)
    ensures AllSpace(" \t\n\r") && (' ' < c <= '~' ==> !IsSpace(c))
  {
  }

  // ---------------------------------------------------------------- the manager

  class ApiKeyManager {
    const graceMs: int
    /** The records of the map, in order of insertion, which is the order of the scan. */
    var store: seq<Record>
    ghost var log: seq<Event>
    ghost var clock: int

    ghost predicate Valid()
      reads this
    {
      Consistent(store, log, clock)
    }

    constructor (graceMs: int)
      ensures Valid() && log == [] && this.graceMs == graceMs
    {
      this.graceMs := graceMs;
      store, log, clock := [], [], 0;
    }

    function GraceOr(option: Option<int>): int {
      if option.Some? then option.value else graceMs
    }

    method CreateKey(name: string, ownerId: Option<string>, ownerEmail: Option<string>,
                     id: string, rawKey: string, now: int) returns (r: Result<string, Error>)
      requires Valid() && clock <= now && id !in RecordIds(store) && Fresh(log, rawKey)
      modifies this
      ensures Valid() && clock == now
      ensures r == (if AllSpace(name) then Err(NameRequired) else Ok(rawKey))
      ensures r.Err? ==> log == old(log) && store == old(store)
      ensures r.Ok? ==> log == old(log) + [Create(id, rawKey)]
      ensures r.Ok? ==> store == old(store) + [
                Record(id, Trim(name), Sha256(rawKey), None, None, None, ownerId, ownerEmail, Active, now, None)]
    {
      ClockAdvances(store, log, clock, now);
      clock := now;
      ghost var from, to := TrimMeans(name);
      if Trim(name) == "" { return Err(NameRequired); }
      var record := Record(id, Trim(name), Sha256(rawKey), None, None, None, ownerId, ownerEmail, Active, now, None);
      RecordAdded(store, log, clock, record, rawKey);
      log := log + [Create(id, rawKey)];
      store := store + [record];
      return Ok(rawKey);
    }

    /** Accepts exactly the keys that the log says are good at this moment, whatever earlier scans have left
        uncleaned. The scan stops at the first match: the records before it are cleaned up if their
        grace period is over, the match is marked as used, those after it are not looked at. */
    method Validate(rawKey: string, now: int) returns (r: Option<Record>, ghost at: nat)
      requires Valid() && clock <= now
      modifies this
      ensures Valid() && log == old(log) && clock == now && |store| == |old(store)|
      ensures r.Some? <==> exists id :: LogAccepts(log, id, rawKey, now)
      ensures r.Some? ==>
                && at < |store| && Accepts(Spec(log)[at], rawKey, now) && r.value.id == Spec(log)[at].id
                && store[at] == r.value == old(store)[at].(lastUsedAt := Some(now))
      ensures r.Some? ==> "nlk_" <= rawKey
      ensures r.None? ==> at == if HasPrefix(rawKey) then |store| else 0
      ensures forall i :: 0 <= i < at <= |store| ==>
                var r := old(store)[i];
                store[i] == if r.status == Rotating && r.graceEndsAt.Some? && now > r.graceEndsAt.value
                            then r.(prevKeyHash := None, rotationStartedAt := None,
                                    graceEndsAt := None, status := Active)
                            else r
      ensures forall i :: 0 <= i < |store| && (if r.Some? then at < i else at <= i) ==> store[i] == old(store)[i]
    {
      ClockAdvances(store, log, clock, now);
      clock := now;
      AcceptedIffLogged(log, rawKey, now);
      if !HasPrefix(rawKey) {
        UnprefixedRejected(log, rawKey, now);
        return None, 0;
      }
      var n := Scan(rawKey, now);
      if n == |store| { return None, n; }
      assert n < |Spec(log)| && Accepts(Spec(log)[n], rawKey, now) && Refines(store[n], Spec(log)[n], clock);
      return Some(store[n]), n;
    }

    /** The loop: passes over the records that do not accept the key, and marks the one that does. */
    method Scan(rawKey: string, now: int) returns (n: nat)
      requires Valid() && clock == now
      modifies this`store
      ensures Valid() && n <= |store| == |old(store)|
      ensures forall j :: 0 <= j < n ==> !Accepts(Spec(log)[j], rawKey, now)
      ensures forall j :: 0 <= j < n ==> store[j] == AutoCommit(old(store)[j], now)
      ensures n < |store| ==> Accepts(Spec(log)[n], rawKey, now)
      ensures n < |store| ==> store[n] == old(store)[n].(lastUsedAt := Some(now))
      ensures forall j :: n < j < |store| ==> store[j] == old(store)[j]
    {
      for i := 0 to |store|
        invariant Valid() && |store| == |old(store)|
        invariant forall j :: 0 <= j < i ==> store[j] == AutoCommit(old(store)[j], now)
        invariant forall j :: i <= j < |store| ==> store[j] == old(store)[j]
        invariant forall j :: 0 <= j < i ==> !Accepts(Spec(log)[j], rawKey, now)
      {
        var hit := Visit(i, rawKey, now);
        if hit { return i; }
      }
      return |store|;
    }

    /** One record of the scan: whether it accepts the key, and what becomes of it. */
    method Visit(i: nat, rawKey: string, now: int) returns (hit: bool)
      requires Valid() && clock == now && i < |store|
      modifies this`store
      ensures Valid()
      ensures i < |Spec(log)| && (hit <==> Accepts(Spec(log)[i], rawKey, now))
      ensures hit ==> store == old(store)[i := old(store)[i].(lastUsedAt := Some(now))]
      ensures !hit ==> store == old(store)[i := AutoCommit(old(store)[i], now)]
    {
      var record := store[i];
      var incoming := Sha256(rawKey);
      LegalKeysDistinct(log);
      ScanStep(record, Spec(log)[i], rawKey, now);
      hit := false;
      if record.status != Revoked {
        if incoming == record.keyHash {
          hit := true;
        } else if record.status == Rotating && record.prevKeyHash.Some? && record.graceEndsAt.Some? {
          var graceExpired := now > record.graceEndsAt.value;
          if !graceExpired && incoming == record.prevKeyHash.value {
            hit := true;
          } else if graceExpired {
            record := Settled(record);
          }
        }
        if hit { record := record.(lastUsedAt := Some(now)); }
      }
      store := store[i := record];
    }

    /** Issues a new key. The replaced key is good until the returned time; with a grace of 0 it is
        dropped at once. */
    method RotateKey(id: string, graceOption: Option<int>, rawKey: string, now: int)
      returns (r: Result<int, Error>)
      requires Valid() && clock <= now && Fresh(log, rawKey)
      modifies this
      ensures Valid() && clock == now
      ensures r == Err(NotFound) <==> Last(old(log), id).None?
      ensures r == Err(KeyRevoked) <==> Last(old(log), id).Some? && Last(old(log), id).value.Revoke?
      ensures r == Err(GraceOutOfRange) <==>
                && Last(old(log), id).Some? && !Last(old(log), id).value.Revoke?
                && !(0 <= GraceOr(graceOption) <= 2592000000)
      ensures r.Err? ==> r.error in {NotFound, KeyRevoked, GraceOutOfRange}
      ensures r.Ok? ==> r.value - now == if graceOption.Some? then graceOption.value else graceMs
      ensures r.Ok? ==> r.value - now == GraceOr(graceOption) && LastIssued(old(log), id).Some?
      ensures r.Ok? ==> forall t :: now <= t ==>
                (LogAccepts(log, id, LastIssued(old(log), id).value, t) <==> GraceOr(graceOption) > 0 && t <= r.value)
      ensures r.Ok? ==> log == old(log) + [Rotate(id, rawKey, now, GraceOr(graceOption))]
      ensures r.Ok? ==>
                var i := IndexOf(RecordIds(old(store)), id);
                && i < |old(store)| == |store|
                && (forall j :: 0 <= j < |store| && j != i ==> store[j] == old(store)[j])
                && var k := old(store)[i];
                   store[i] == if r.value == now
                               then k.(keyHash := Sha256(rawKey), prevKeyHash := None, rotationStartedAt := None,
                                       graceEndsAt := None, status := Active)
                               else k.(keyHash := Sha256(rawKey), prevKeyHash := Some(k.keyHash),
                                       rotationStartedAt := Some(now), graceEndsAt := Some(r.value),
                                       status := Rotating)
      ensures r.Err? ==> log == old(log) && store == old(store)
    {
      ClockAdvances(store, log, clock, now);
      clock := now;
      SameIds(store, log, clock);
      KnownIffLogged(log, id);
      var i := IndexOf(RecordIds(store), id);
      if i == |store| { return Err(NotFound); }
      RevokedIffLast(log, i);
      if store[i].status == Revoked { return Err(KeyRevoked); }
      var grace := GraceOr(graceOption);
      if !ValidGrace(grace) { return Err(GraceOutOfRange); }
      ReplacedIsGood(log, id, rawKey, now, grace);
      ReplaceKey(i, rawKey, now, grace);
      return Ok(now + grace);
    }

    /** The assignments of a rotation that is not refused. */
    method ReplaceKey(i: nat, rawKey: string, now: int, grace: int)
      requires Valid() && clock == now && Fresh(log, rawKey) && ValidGrace(grace)
      requires i < |store| && store[i].status != Revoked && IndexOf(RecordIds(store), store[i].id) == i
      modifies this`store, this`log
      ensures Valid()
      ensures log == old(log) + [Rotate(old(store)[i].id, rawKey, now, grace)]
      ensures store == old(store)[i := Replaced(old(store)[i], rawKey, now, grace)]
    {
      var record := store[i];
      SameIds(store, log, clock);
      ReplacedRefines(record, Spec(log)[i], rawKey, now, grace);
      record := Replaced(record, rawKey, now, grace);
      RecordFollows(store, log, clock, i, record, Rotate(record.id, rawKey, now, grace));
      log := log + [Rotate(record.id, rawKey, now, grace)];
      store := store[i := record];
    }

    /** Commits a rotation. It succeeds while the grace period lasts; once that is over it succeeds or
        fails according to whether a scan has passed over the record. */
    method CommitRotation(id: string) returns (r: Result<(), Error>)
      requires Valid()
      modifies this
      ensures Valid() && clock == old(clock)
      ensures r == Err(NotFound) <==> Last(old(log), id).None?
      ensures var i := IndexOf(RecordIds(old(store)), id);
              if i == |old(store)| then r == Err(NotFound) && store == old(store)
              else if old(store)[i].status == Rotating
              then && r == Ok(())
                   && store == old(store)[i := old(store)[i].(prevKeyHash := None, rotationStartedAt := None,
                                                              graceEndsAt := None, status := Active)]
              else r == Err(NotRotating) && store == old(store)
      ensures var i := IndexOf(KeyIds(Spec(old(log))), id);
              i < |Spec(old(log))| ==>
                match Spec(old(log))[i].previous
                case None => r == Err(NotRotating)
                case Some(grace) => clock <= grace.until ==> r == Ok(())
      ensures log == old(log) + if r.Ok? then [Commit(id)] else []
    {
      KnownIffLogged(log, id);
      SameIds(store, log, clock);
      var i := IndexOf(RecordIds(store), id);
      if i == |store| { return Err(NotFound); }
      if store[i].status != Rotating { return Err(NotRotating); }
      RecordFollows(store, log, clock, i, Settled(store[i]), Commit(id));
      log := log + [Commit(id)];
      store := store[i := Settled(store[i])];
      return Ok(());
    }

    method RevokeKey(id: string) returns (r: Result<(), Error>)
      requires Valid()
      modifies this
      ensures Valid() && clock == old(clock)
      ensures r == Err(NotFound) <==> Last(old(log), id).None?
      ensures var i := IndexOf(RecordIds(old(store)), id);
              if i == |old(store)| then r == Err(NotFound) && store == old(store) && log == old(log)
              else && r == Ok(())
                   && store == old(store)[i := old(store)[i].(prevKeyHash := None, rotationStartedAt := None,
                                                              graceEndsAt := None, status := Revoked)]
                   && log == old(log) + [Revoke(id)]
    {
      KnownIffLogged(log, id);
      SameIds(store, log, clock);
      var i := IndexOf(RecordIds(store), id);
      if i == |store| { return Err(NotFound); }
      var record := store[i].(status := Revoked, prevKeyHash := None, rotationStartedAt := None, graceEndsAt := None);
      RecordFollows(store, log, clock, i, record, Revoke(id));
      log := log + [Revoke(id)];
      store := store[i := record];
      return Ok(());
    }

    /** After any sequence of operations and scans: a record is rotating exactly when all three rotation
        fields are set, and otherwise none is; a grace period lasts from 1 to MAX_GRACE_MS milliseconds. */
    lemma RotatingIffFieldsSet(i: nat)
      requires Valid() && i < |store|
      ensures var r := store[i];
              && (r.status == Rotating <==> r.prevKeyHash.Some? && r.rotationStartedAt.Some? && r.graceEndsAt.Some?)
              && (r.status != Rotating <==> Clear(r))
              && (r.status == Rotating ==> 1 <= r.graceEndsAt.value - r.rotationStartedAt.value <= 2592000000)
    {
      assert Refines(store[i], Spec(log)[i], clock);
    }

    /** The current and previous hashes held by all records are pairwise distinct. */
    lemma HashesDistinct(i: nat, j: nat, hash: Hash)
      requires Valid() && i < |store| && j < |store| && HoldsHash(store[i], hash) && HoldsHash(store[j], hash)
      ensures i == j
      ensures Some(store[i].keyHash) != store[i].prevKeyHash
    {
      LegalKeysDistinct(log);
      assert Refines(store[i], Spec(log)[i], clock) && Refines(store[j], Spec(log)[j], clock);
      assert Holds(Spec(log)[i], hash.raw) && Holds(Spec(log)[j], hash.raw);
    }
  }
}
