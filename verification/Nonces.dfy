/**
 One-time nonces: backend/src/auth/nonce.service.ts. The consume script is atomic; Redis may expire an
 entry at any moment; the clean-up job scans, reads and deletes in separate commands, between which
 anything may happen. A nonce is a random UUID and is issued once.
 */
module Nonces {
  import opened Prelude

  const NONCE_EXPIRY_MS := 5 * 60 * 1000

  datatype Entry = Entry(publicKey: string, expiresAt: int, used: bool)

  type Redis = map<string, Entry>

  /** The return code of CONSUME_NONCE_SCRIPT. */
  function ScriptCode(r: Redis, nonce: string, publicKey: string): int {
    if nonce !in r then -1
    else if r[nonce].used then -2
    else if r[nonce].publicKey != publicKey then -3
    else 1
  }

  function AfterScript(r: Redis, nonce: string, publicKey: string): Redis {
    if ScriptCode(r, nonce, publicKey) == 1 then r[nonce := r[nonce].(used := true)] else r
  }

  // ---------------------------------------------------------------- runs

  datatype Event =
    | Issue(nonce: string, publicKey: string, now: int)
    | Consume(nonce: string, publicKey: string)
    | Expire(nonce: string)
    | CleanRead(nonce: string)     // GET of a scanned key
    | CleanDelete(nonce: string)   // DEL of a key that was read as used

  /** Redis, and the keys that some clean-up run has read as used. Runs overlap, on one server and on several
      that share a Redis, so that such a key may be deleted any number of times. */
  datatype State = State(redis: Redis, doomed: set<string>)

  function Apply(s: State, e: Event): State {
    match e
    case Issue(n, key, now) => s.(redis := s.redis[n := Entry(key, now + NONCE_EXPIRY_MS, false)])
    case Consume(n, key) => s.(redis := AfterScript(s.redis, n, key))
    case Expire(n) => s.(redis := s.redis - {n})
    case CleanRead(n) => if n in s.redis && s.redis[n].used then s.(doomed := s.doomed + {n}) else s
    case CleanDelete(n) => s.(redis := s.redis - {n})
  }

  function Run(es: seq<Event>): State {
    if es == [] then State(map[], {}) else Apply(Run(es[..|es| - 1]), es[|es| - 1])
  }

  /** What `consumeNonce` answers after the run. */
  predicate Succeeds(es: seq<Event>, nonce: string, publicKey: string) {
    ScriptCode(Run(es).redis, nonce, publicKey) == 1
  }

  /** A nonce is issued once, and clean-up deletes only what it has read as used. */
  predicate Legal(es: seq<Event>) {
    es == [] ||
    (var front, e := es[..|es| - 1], es[|es| - 1];
     && Legal(front)
     && (e.Issue? ==> IssuedTo(front, e.nonce).None?)
     && (e.CleanDelete? ==> e.nonce in Run(front).doomed))
  }

  // ---------------------------------------------------------------- the history of one nonce

  /** The key that the nonce was issued to. */
  function IssuedTo(es: seq<Event>, nonce: string): Option<string> {
    if es == [] then None
    else if es[|es| - 1].Issue? && es[|es| - 1].nonce == nonce then Some(es[|es| - 1].publicKey)
    else IssuedTo(es[..|es| - 1], nonce)
  }

  /** Whether the nonce has expired since it was issued. */
  predicate Expired(es: seq<Event>, nonce: string) {
    es != [] && !(es[|es| - 1].Issue? && es[|es| - 1].nonce == nonce)
    && (es[|es| - 1] == Expire(nonce) || Expired(es[..|es| - 1], nonce))
  }

  /** How many times the nonce has been consumed with `true`. */
  function Wins(es: seq<Event>, nonce: string): nat {
    if es == [] then 0
    else
      var front, e := es[..|es| - 1], es[|es| - 1];
      Wins(front, nonce) + if e.Consume? && e.nonce == nonce && Succeeds(front, nonce, e.publicKey) then 1 else 0
  }

  /** A nonce is good while it is issued, unexpired and unused, and that is all Redis knows of it: what
      the clean-up job is about to delete is no longer good. */
  predicate Good(es: seq<Event>, nonce: string) {
    IssuedTo(es, nonce).Some? && !Expired(es, nonce) && Wins(es, nonce) == 0
  }

  lemma {:induction false} RedisKnowsGood(es: seq<Event>, nonce: string)
    requires Legal(es)
    ensures Good(es, nonce) <==> nonce in Run(es).redis && !Run(es).redis[nonce].used
    ensures nonce in Run(es).redis ==> IssuedTo(es, nonce) == Some(Run(es).redis[nonce].publicKey)
    ensures nonce in Run(es).doomed ==> !Good(es, nonce) && IssuedTo(es, nonce).Some?
    ensures Wins(es, nonce) <= 1 && (IssuedTo(es, nonce).None? ==> Wins(es, nonce) == 0)
  {
    if es != [] { RedisKnowsGood(es[..|es| - 1], nonce); }
  }

  /** A consume succeeds exactly when the nonce was issued to that key, has not expired and was never
      consumed before. */
  lemma ConsumeSucceedsIff(es: seq<Event>, nonce: string, publicKey: string)
    requires Legal(es)
    ensures Succeeds(es, nonce, publicKey) <==>
              IssuedTo(es, nonce) == Some(publicKey) && !Expired(es, nonce) && Wins(es, nonce) == 0
  {
    RedisKnowsGood(es, nonce);
  }

  /** The return code tells what the history of the nonce is: used before, issued to another key, or unknown
      because it was never issued, has expired, or was used and cleaned up. */
  lemma ScriptTells(es: seq<Event>, nonce: string, publicKey: string)
    requires Legal(es)
    ensures var code := ScriptCode(Run(es).redis, nonce, publicKey);
            && code in {1, -1, -2, -3}
            && (code == -3 <==> Good(es, nonce) && IssuedTo(es, nonce) != Some(publicKey))
            && (code == -2 ==> !Good(es, nonce) && IssuedTo(es, nonce).Some?)
            && (code == -1 <==> nonce !in Run(es).redis)
            && (code == -1 ==> !Good(es, nonce))
  {
    RedisKnowsGood(es, nonce);
  }

  /** Under every interleaving, a nonce is consumed with `true` at most once. */
  lemma SingleUse(es: seq<Event>, nonce: string)
    requires Legal(es)
    ensures Wins(es, nonce) <= 1
  {
    RedisKnowsGood(es, nonce);
  }

  // ---------------------------------------------------------------- clean-up is invisible

  function Uncleaned(es: seq<Event>): seq<Event> {
    if es == [] then []
    else if es[|es| - 1].CleanRead? || es[|es| - 1].CleanDelete? then Uncleaned(es[..|es| - 1])
    else Uncleaned(es[..|es| - 1]) + [es[|es| - 1]]
  }

  lemma {:induction false} UncleanedHistory(es: seq<Event>)
    requires Legal(es)
    ensures Legal(Uncleaned(es))
    ensures forall n :: IssuedTo(Uncleaned(es), n) == IssuedTo(es, n)
    ensures forall n :: Expired(Uncleaned(es), n) == Expired(es, n)
    ensures forall n :: Wins(Uncleaned(es), n) == Wins(es, n)
  {
    if es != [] {
      var front, e := es[..|es| - 1], es[|es| - 1];
      UncleanedHistory(front);
      if !e.CleanRead? && !e.CleanDelete? {
        var u := Uncleaned(front);
        assert Uncleaned(es)[..|u|] == u;
        if e.Consume? {
          ConsumeSucceedsIff(front, e.nonce, e.publicKey);
          ConsumeSucceedsIff(u, e.nonce, e.publicKey);
        }
      }
    }
  }

  /** Clean-up never changes the answer of any consume: it is that of the same run without clean-up. */
  lemma CleanupInvisible(es: seq<Event>, nonce: string, publicKey: string)
    requires Legal(es)
    ensures Succeeds(es, nonce, publicKey) <==> Succeeds(Uncleaned(es), nonce, publicKey)
  {
    UncleanedHistory(es);
    ConsumeSucceedsIff(es, nonce, publicKey);
    ConsumeSucceedsIff(Uncleaned(es), nonce, publicKey);
  }

  // ---------------------------------------------------------------- the service

  function KeySet(keys: seq<string>): set<string> { set k | k in keys }

  /** The keys named in a sequence of batches. */
  function Named(batches: seq<seq<string>>): set<string> {
    if batches == [] then {} else Named(batches[..|batches| - 1]) + KeySet(batches[|batches| - 1])
  }

  /** What is left when the used entries among `keys` are deleted. */
  function Swept(r: Redis, keys: set<string>): Redis {
    map n | n in r && !(n in keys && r[n].used) :: r[n]
  }

  class NonceService {
    var redis: Redis
    ghost var events: seq<Event>

    ghost predicate Valid()
      reads this
    {
      Legal(events) && Run(events).redis == redis
    }

    constructor ()
      ensures Valid() && events == []
    {
      redis, events := map[], [];
    }

    method GenerateNonce(publicKey: string, nonce: string, now: int) returns (expiresAt: int)
      requires Valid() && IssuedTo(events, nonce).None?
      modifies this
      ensures Valid() && events == old(events) + [Issue(nonce, publicKey, now)]
      ensures redis == old(redis)[nonce := Entry(publicKey, expiresAt, false)]
      ensures expiresAt == now + 300000
    {
      expiresAt := now + NONCE_EXPIRY_MS;
      OneMore(events, Issue(nonce, publicKey, now));
      redis := redis[nonce := Entry(publicKey, expiresAt, false)];
      events := events + [Issue(nonce, publicKey, now)];
    }

    method ConsumeNonce(nonce: string, publicKey: string) returns (ok: bool)
      requires Valid()
      modifies this
      ensures Valid() && events == old(events) + [Consume(nonce, publicKey)]
      ensures ok <==> IssuedTo(old(events), nonce) == Some(publicKey) && !Expired(old(events), nonce)
                      && Wins(old(events), nonce) == 0
      ensures !ok ==> redis == old(redis)
      ensures ok ==> nonce in old(redis) && redis == old(redis)[nonce := old(redis)[nonce].(used := true)]
    {
      ConsumeSucceedsIff(events, nonce, publicKey);
      OneMore(events, Consume(nonce, publicKey));
      var code := ScriptCode(redis, nonce, publicKey);
      redis := AfterScript(redis, nonce, publicKey);
      events := events + [Consume(nonce, publicKey)];
      match code
      case 1 => ok := true;
      case _ => ok := false;
    }

    /** Redis drops an entry whose TTL has run out. */
    method ExpireNonce(nonce: string)
      requires Valid()
      modifies this
      ensures Valid() && events == old(events) + [Expire(nonce)] && redis == old(redis) - {nonce}
    {
      OneMore(events, Expire(nonce));
      redis := redis - {nonce};
      events := events + [Expire(nonce)];
    }

    /** One clean-up run that nothing interrupts, on the batches that SCAN returns, which may name a key
        more than once or one that is gone. It deletes the used entries it meets and no others. */
    method CleanupUsedNonces(batches: seq<seq<string>>) returns (cleaned: nat)
      requires Valid()
      modifies this
      ensures Valid() && Uncleaned(events) == Uncleaned(old(events))
      ensures redis == Swept(old(redis), Named(batches))
      ensures cleaned == |old(redis)| - |redis|
    {
      cleaned := 0;
      for i := 0 to |batches|
        invariant Valid() && Uncleaned(events) == Uncleaned(old(events))
        invariant redis == Swept(old(redis), Named(batches[..i])) && cleaned == |old(redis)| - |redis|
      {
        var n := CleanBatch(batches[i]);
        cleaned := cleaned + n;
        assert batches[..i + 1][..i] == batches[..i];
        SweptTwice(old(redis), Named(batches[..i]), KeySet(batches[i]));
      }
      assert batches[..|batches|] == batches;
    }

    method CleanBatch(keys: seq<string>) returns (cleaned: nat)
      requires Valid()
      modifies this
      ensures Valid() && Uncleaned(events) == Uncleaned(old(events))
      ensures redis == Swept(old(redis), KeySet(keys))
      ensures cleaned == |old(redis)| - |redis|
    {
      cleaned := 0;
      for j := 0 to |keys|
        invariant Valid() && Uncleaned(events) == Uncleaned(old(events))
        invariant redis == Swept(old(redis), KeySet(keys[..j])) && cleaned == |old(redis)| - |redis|
      {
        var gone := CleanOne(keys[j]);
        if gone { cleaned := cleaned + 1; }
        SweptNext(old(redis), keys, j);
      }
      assert keys[..|keys|] == keys;
    }

    /** GET of one key, and DEL if it is used. */
    method CleanOne(key: string) returns (gone: bool)
      requires Valid()
      modifies this
      ensures Valid() && Uncleaned(events) == Uncleaned(old(events))
      ensures gone <==> key in old(redis) && old(redis)[key].used
      ensures redis == if gone then old(redis) - {key} else old(redis)
      ensures |redis| == |old(redis)| - if gone then 1 else 0
    {
      OneMore(events, CleanRead(key));
      OneMore(events + [CleanRead(key)], CleanDelete(key));
      if key !in redis || !redis[key].used { return false; }
      assert |redis| == |redis.Keys| == |(redis - {key}).Keys| + 1 by {
        assert (redis - {key}).Keys == redis.Keys - {key};
      }
      events := events + [CleanRead(key)];
      events := events + [CleanDelete(key)];
      redis := redis - {key};
      return true;
    }
  }

  lemma SweptOneMore(r: Redis, keys: set<string>, key: string)
    ensures var s := Swept(r, keys);
            Swept(r, keys + {key}) == if key in s && s[key].used then s - {key} else s
  {
  }

  lemma SweptNext(r: Redis, keys: seq<string>, j: nat)
    requires j < |keys|
    ensures var s := Swept(r, KeySet(keys[..j]));
            Swept(r, KeySet(keys[..j + 1])) == if keys[j] in s && s[keys[j]].used then s - {keys[j]} else s
  {
    assert keys[..j + 1] == keys[..j] + [keys[j]];
    assert KeySet(keys[..j + 1]) == KeySet(keys[..j]) + {keys[j]};
    SweptOneMore(r, KeySet(keys[..j]), keys[j]);
  }

  lemma SweptTwice(r: Redis, a: set<string>, b: set<string>)
    ensures Swept(Swept(r, a), b) == Swept(r, a + b)
  {
  }

  lemma OneMore(es: seq<Event>, e: Event)
    ensures Run(es + [e]) == Apply(Run(es), e)
    ensures Legal(es) && (e.Issue? ==> IssuedTo(es, e.nonce).None?) && (e.CleanDelete? ==> e.nonce in Run(es).doomed)
            ==> Legal(es + [e])
    ensures e.CleanRead? || e.CleanDelete? ==> Uncleaned(es + [e]) == Uncleaned(es)
  {
    assert (es + [e])[..|es|] == es;
  }
}
