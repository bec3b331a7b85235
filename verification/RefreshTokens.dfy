/**
 Refresh-token families: backend/src/auth/refresh-token-family.service.ts, on the table of
 backend/prisma/migrations/20260623000002_add_refresh_token_family/migration.sql.

 Any number of rotations run at once, each inside a transaction, interleaved statement by statement
 with logins, logouts and prunes. A statement sees the committed table; a row that another open
 transaction has written is locked, and a statement that would write it waits; an error thrown inside
 the transaction rolls back everything the transaction did.
 */
module RefreshTokens {
  import opened Prelude

  datatype Row = Row(id: nat, family: string, used: bool, expiresAt: int)

  datatype Error = InvalidToken | ReuseDetected | UniqueViolation

  /** Where a rotation stands: which statement it runs next, and what it holds. */
  datatype Pc =
    | Start                              // about to run updateMany
    | Missed                             // updateMany matched no row; about to re-fetch
    | Doomed(family: string)             // the row was used; about to delete its family
    | Ready                              // about to fetch the row
    | Fetched(row: Row)                  // about to insert the next token
    | Inserted(row: Row)                 // about to commit
    | Failed(error: Error, deleted: set<string>)  // about to throw, with these deletions pending

  /** `marked` says that updateMany set `used` on the current token, which is locked from then on. */
  datatype Rotation = Rotation(current: string, next: string, expiresAt: int, pc: Pc, marked: bool)

  /** The committed table, by token; the open transactions; the committed rotations, as pairs of row ids;
      every family id ever created. */
  datatype Db = Db(
    rows: map<string, Row>,
    open: map<nat, Rotation>,
    issued: seq<(nat, nat)>,
    families: set<string>,
    nextId: nat)

  datatype Step =
    | Begin(tx: nat, current: string, next: string, expiresAt: int)
    | Mark(tx: nat)
    | Refetch(tx: nat)
    | DeleteFamily(tx: nat)
    | Fetch(tx: nat)
    | Insert(tx: nat)
    | Commit(tx: nat)
    | Rollback(tx: nat)
    | Login(token: string, family: string, expiresAt: int)
    | Remove(gone: set<string>)          // what a logout or a prune deletes

  /** The rows and index entries that a transaction has written. */
  predicate Writes(t: Rotation, token: string) {
    || (t.marked && token == t.current)
    || (t.pc.Inserted? && token == t.next)
    || (t.pc.Failed? && token in t.pc.deleted)
  }

  ghost predicate Free(db: Db, tx: nat, token: string) {
    forall i :: i in db.open && i != tx ==> !Writes(db.open[i], token)
  }

  function Live(db: Db, token: string): bool {
    token in db.rows && !db.rows[token].used
  }

  function FamilyRows(db: Db, family: string): set<string> {
    set t | t in db.rows && db.rows[t].family == family
  }

  /** Whether a statement can run now: it is the next one of its transaction and waits for no lock. */
  ghost predicate Enabled(db: Db, s: Step) {
    match s
    case Begin(i, _, _, _) => i !in db.open
    case Mark(i) =>
      i in db.open && db.open[i].pc.Start?
      && (Live(db, db.open[i].current) ==> Free(db, i, db.open[i].current))
    case Refetch(i) => i in db.open && db.open[i].pc.Missed?
    case DeleteFamily(i) =>
      i in db.open && db.open[i].pc.Doomed?
      && forall t :: t in FamilyRows(db, db.open[i].pc.family) ==> Free(db, i, t)
    case Fetch(i) => i in db.open && db.open[i].pc.Ready?
    case Insert(i) => i in db.open && db.open[i].pc.Fetched? && Free(db, i, db.open[i].next)
    case Commit(i) => i in db.open && db.open[i].pc.Inserted?
    case Rollback(i) => i in db.open
    case Login(token, family, _) =>
      token !in db.rows && family !in db.families && forall i :: i in db.open ==> !Writes(db.open[i], token)
    case Remove(gone) => forall t, i :: t in gone && i in db.open ==> !Writes(db.open[i], t)
  }

  function At(db: Db, i: nat, pc: Pc): Db
    requires i in db.open
  {
    db.(open := db.open[i := db.open[i].(pc := pc)])
  }

  /** The effect of a statement, branch by branch. */
  function Do(db: Db, s: Step): Db
    requires s.Begin? || s.Login? || s.Remove? || s.tx in db.open
  {
    match s
    case Begin(i, current, next, expiresAt) =>
      db.(open := db.open[i := Rotation(current, next, expiresAt, Start, false)])
    case Mark(i) =>
      if Live(db, db.open[i].current)
      then db.(open := db.open[i := db.open[i].(pc := Ready, marked := true)])
      else At(db, i, Missed)
    case Refetch(i) =>
      var current := db.open[i].current;
      if current !in db.rows then At(db, i, Failed(InvalidToken, {}))
      else if db.rows[current].used then At(db, i, Doomed(db.rows[current].family))
      else At(db, i, Ready)
    case DeleteFamily(i) =>
      if db.open[i].pc.Doomed? then At(db, i, Failed(ReuseDetected, FamilyRows(db, db.open[i].pc.family))) else db
    case Fetch(i) =>
      var current := db.open[i].current;
      if current in db.rows then At(db, i, Fetched(db.rows[current])) else At(db, i, Failed(InvalidToken, {}))
    case Insert(i) =>
      var t := db.open[i];
      if !t.pc.Fetched? then db
      else if t.next in db.rows then At(db, i, Failed(UniqueViolation, {}))
      else At(db, i, Inserted(t.pc.row))
    case Commit(i) =>
      var t := db.open[i];
      if !t.pc.Inserted? then db
      else
        var marked := if t.marked && t.current in db.rows
                      then db.rows[t.current := db.rows[t.current].(used := true)] else db.rows;
        Db(marked[t.next := Row(db.nextId, t.pc.row.family, false, t.expiresAt)],
           db.open - {i}, db.issued + [(t.pc.row.id, db.nextId)], db.families, db.nextId + 1)
    case Rollback(i) => db.(open := db.open - {i})
    case Login(token, family, expiresAt) =>
      db.(rows := db.rows[token := Row(db.nextId, family, false, expiresAt)],
          families := db.families + {family}, nextId := db.nextId + 1)
    case Remove(gone) => db.(rows := db.rows - gone)
  }

  // ---------------------------------------------------------------- the properties

  /** Every family has at most one unused token. A rotation that has marked a token and not yet
      committed counts as that token. */
  ghost predicate OneLivePerFamily(db: Db) {
    forall s, t :: Live(db, s) && Live(db, t) && db.rows[s].family == db.rows[t].family ==> s == t
  }

  /** No row was ever given two successors. */
  ghost predicate OneSuccessor(db: Db) {
    forall j, k :: 0 <= j < k < |db.issued| ==> db.issued[j].0 != db.issued[k].0
  }

  /** Rotations that have missed their token do not find it unused afterwards. */
  ghost predicate MissedStayMissed(db: Db) {
    forall i :: i in db.open && db.open[i].pc.Missed? ==> !Live(db, db.open[i].current)
  }

  /** A token is not stored while a rotation that was presented with it, and did not find it, is between
      its first two statements. */
  ghost predicate NotEarly(db: Db, s: Step) {
    match s
    case Login(token, _, _) => forall j :: j in db.open && db.open[j].pc.Missed? ==> db.open[j].current != token
    case Commit(i) =>
      i in db.open ==> forall j :: j in db.open && db.open[j].pc.Missed? ==> db.open[j].current != db.open[i].next
    case _ => true
  }

  // ---------------------------------------------------------------- the invariant

  /** Past the mark, a rotation holds the row it will replace. */
  ghost predicate Holds(db: Db, t: Rotation) {
    && (t.pc.Ready? || t.pc.Fetched? || t.pc.Inserted? ==> t.marked)
    && (t.marked ==> Live(db, t.current) && (t.pc.Ready? || t.pc.Fetched? || t.pc.Inserted? || t.pc.Failed?))
    && (t.marked && t.pc.Failed? ==> t.pc.deleted == {})
    && (t.pc.Fetched? || t.pc.Inserted? ==> t.current in db.rows && t.pc.row == db.rows[t.current])
    && (t.pc.Inserted? ==> t.next !in db.rows)
  }

  ghost predicate Exclusive(db: Db) {
    forall i, j, t :: i in db.open && j in db.open && Writes(db.open[i], t) && Writes(db.open[j], t) ==> i == j
  }

  ghost predicate IdsFresh(db: Db) {
    && (forall t :: t in db.rows ==> db.rows[t].id < db.nextId && db.rows[t].family in db.families)
    && (forall s, t :: s in db.rows && t in db.rows && db.rows[s].id == db.rows[t].id ==> s == t)
    && (forall k :: 0 <= k < |db.issued| ==> db.issued[k].0 < db.nextId)
    && (forall k, t :: 0 <= k < |db.issued| && Live(db, t) ==> db.rows[t].id != db.issued[k].0)
  }

  ghost predicate Inv(db: Db) {
    && OneLivePerFamily(db) && OneSuccessor(db) && MissedStayMissed(db)
    && Exclusive(db) && IdsFresh(db)
    && forall i :: i in db.open ==> Holds(db, db.open[i])
  }

  const EMPTY := Db(map[], map[], [], {}, 0)

  lemma MoveKeepsInv(db: Db, i: nat, t: Rotation)
    requires Inv(db) && Holds(db, t)
    requires t.pc.Missed? ==> !Live(db, t.current)
    requires forall u :: Writes(t, u) ==> Free(db, i, u)
    ensures Inv(db.(open := db.open[i := t]))
  {
  }

  lemma CloseKeepsInv(db: Db, i: nat)
    requires Inv(db)
    ensures Inv(db.(open := db.open - {i}))
  {
  }

  lemma RemoveKeepsInv(db: Db, gone: set<string>)
    requires Inv(db) && Enabled(db, Remove(gone))
    ensures Inv(db.(rows := db.rows - gone))
  {
    var e := db.(rows := db.rows - gone);
    forall i | i in e.open ensures Holds(e, e.open[i]) {
      var t := e.open[i];
      assert Holds(db, t);
      assert t.marked ==> Writes(t, t.current);
    }
  }

  lemma LoginKeepsInv(db: Db, token: string, family: string, expiresAt: int)
    requires Inv(db) && Enabled(db, Login(token, family, expiresAt)) && NotEarly(db, Login(token, family, expiresAt))
    ensures Inv(Do(db, Login(token, family, expiresAt)))
  {
    var e := Do(db, Login(token, family, expiresAt));
    forall i | i in e.open ensures Holds(e, e.open[i]) {
      var t := e.open[i];
      assert Holds(db, t);
      assert t.pc.Inserted? ==> Writes(t, t.next);
    }
  }

  lemma CommitMovesLife(db: Db, i: nat)
    requires Inv(db) && Enabled(db, Commit(i))
    ensures forall s :: Live(Do(db, Commit(i)), s) <==>
              s == db.open[i].next || (Live(db, s) && s != db.open[i].current)
    ensures OneLivePerFamily(Do(db, Commit(i)))
  {
    assert Holds(db, db.open[i]);
  }

  lemma CommitKeepsSuccessors(db: Db, i: nat)
    requires Inv(db) && Enabled(db, Commit(i))
    ensures OneSuccessor(Do(db, Commit(i)))
  {
    var t := db.open[i];
    assert Holds(db, t) && Live(db, t.current);
  }

  lemma CommitKeepsIds(db: Db, i: nat)
    requires Inv(db) && Enabled(db, Commit(i))
    ensures IdsFresh(Do(db, Commit(i)))
  {
    var t, e := db.open[i], Do(db, Commit(i));
    assert Holds(db, t) && Live(db, t.current);
    CommitMovesLife(db, i);
    assert forall u :: u in e.rows && u != t.next ==>
        u in db.rows && e.rows[u].id == db.rows[u].id && e.rows[u].family == db.rows[u].family;
  }

  lemma CommitKeepsOpen(db: Db, i: nat)
    requires Inv(db) && Enabled(db, Commit(i))
    ensures var e := Do(db, Commit(i)); forall j :: j in e.open ==> Holds(e, e.open[j])
  {
    var t := db.open[i];
    assert Holds(db, t) && Writes(t, t.current) && Writes(t, t.next);
    var e := Do(db, Commit(i));
    forall j | j in e.open ensures Holds(e, e.open[j]) {
      var u := e.open[j];
      assert Holds(db, u);
      assert u.marked ==> Writes(u, u.current);
      assert u.pc.Inserted? ==> Writes(u, u.next);
    }
  }

  lemma CommitKeepsInv(db: Db, i: nat)
    requires Inv(db) && Enabled(db, Commit(i)) && NotEarly(db, Commit(i))
    ensures Inv(Do(db, Commit(i)))
  {
    CommitMovesLife(db, i);
    CommitKeepsSuccessors(db, i);
    CommitKeepsIds(db, i);
    CommitKeepsOpen(db, i);
  }

  predicate Moves(s: Step) { s.Mark? || s.Refetch? || s.DeleteFamily? || s.Fetch? || s.Insert? }

  lemma MoveStepKeepsInv(db: Db, s: Step)
    requires Inv(db) && Moves(s) && Enabled(db, s)
    ensures Inv(Do(db, s))
  {
    assert Holds(db, db.open[s.tx]);
    var t := Do(db, s).open[s.tx];
    forall u | Writes(t, u) ensures Free(db, s.tx, u) {
      if Writes(db.open[s.tx], u) {
        assert forall j :: j in db.open && j != s.tx ==> !Writes(db.open[j], u);
      }
    }
    MoveKeepsInv(db, s.tx, t);
  }

  /** Every statement of every transaction keeps the invariant. */
  lemma StepKeepsInv(db: Db, s: Step)
    requires Inv(db) && Enabled(db, s) && NotEarly(db, s)
    ensures Inv(Do(db, s))
  {
    if s.Begin? {
      MoveKeepsInv(db, s.tx, Rotation(s.current, s.next, s.expiresAt, Start, false));
    } else if s.Commit? {
      CommitKeepsInv(db, s.tx);
    } else if s.Rollback? {
      CloseKeepsInv(db, s.tx);
    } else if s.Login? {
      LoginKeepsInv(db, s.token, s.family, s.expiresAt);
    } else if s.Remove? {
      RemoveKeepsInv(db, s.gone);
    } else {
      MoveStepKeepsInv(db, s);
    }
  }

  /** An interleaving: statements in any order that the locks allow. */
  ghost predicate Interleaves(db: Db, ss: seq<Step>)
    decreases |ss|
  {
    ss == [] || (Enabled(db, ss[0]) && Interleaves(Do(db, ss[0]), ss[1..]))
  }

  /** An interleaving in which no token is stored too early. */
  ghost predicate IsRun(db: Db, ss: seq<Step>)
    decreases |ss|
  {
    ss == [] || (Enabled(db, ss[0]) && NotEarly(db, ss[0]) && IsRun(Do(db, ss[0]), ss[1..]))
  }

  ghost function Final(db: Db, ss: seq<Step>): Db
    requires Interleaves(db, ss)
    decreases |ss|
  {
    if ss == [] then db else Final(Do(db, ss[0]), ss[1..])
  }

  /** What the families promise. */
  ghost predicate Safe(db: Db) { OneLivePerFamily(db) && OneSuccessor(db) }

  lemma {:induction false} RunInterleaves(db: Db, ss: seq<Step>)
    requires IsRun(db, ss)
    ensures Interleaves(db, ss)
    decreases |ss|
  {
    if ss != [] { RunInterleaves(Do(db, ss[0]), ss[1..]); }
  }

  /** Under every interleaving of any number of rotations, with rollbacks, logins, logouts and prunes, in
      which no token is stored too early, every family has at most one live token and every token at most
      one successor. */
  lemma {:induction false} RunIsSafe(db: Db, ss: seq<Step>)
    requires Inv(db) && IsRun(db, ss)
    ensures Interleaves(db, ss) && Inv(Final(db, ss)) && Safe(Final(db, ss))
    decreases |ss|
  {
    if ss != [] {
      StepKeepsInv(db, ss[0]);
      RunIsSafe(Do(db, ss[0]), ss[1..]);
    }
  }

  // ---------------------------------------------------------------- exactly when the promise holds

  /** Whatever runs from here on, as long as it stores no token too early, the families are safe. */
  ghost predicate StaysSafe(db: Db) {
    forall ss :: IsRun(db, ss) ==> Interleaves(db, ss) && Safe(Final(db, ss))
  }

  /** One more statement at the end of an interleaving, or of a run. */
  lemma {:induction false} RunGrows(db: Db, ss: seq<Step>, s: Step)
    requires Interleaves(db, ss) && Enabled(Final(db, ss), s)
    ensures Interleaves(db, ss + [s]) && Final(db, ss + [s]) == Do(Final(db, ss), s)
    ensures IsRun(db, ss + [s]) <==> IsRun(db, ss) && NotEarly(Final(db, ss), s)
    decreases |ss|
  {
    if ss == [] {
      assert ss + [s] == [s] && [s][1..] == [];
    } else {
      assert (ss + [s])[0] == ss[0] && (ss + [s])[1..] == ss[1..] + [s];
      RunGrows(Do(db, ss[0]), ss[1..], s);
    }
  }

  lemma Then(db: Db, ss: seq<Step>, e: Db, s: Step) returns (ss': seq<Step>, e': Db)
    requires Interleaves(db, ss) && Final(db, ss) == e && Enabled(e, s)
    ensures Interleaves(db, ss') && Final(db, ss') == e' == Do(e, s)
    ensures IsRun(db, ss') <==> IsRun(db, ss) && NotEarly(e, s)
  {
    RunGrows(db, ss, s);
    ss', e' := ss + [s], Do(e, s);
  }

  /** Every other transaction can be rolled back. */
  lemma {:induction false} OthersRollBack(db: Db, ss: seq<Step>, e: Db, i: nat) returns (ss': seq<Step>, e': Db)
    requires IsRun(db, ss) && Interleaves(db, ss) && Final(db, ss) == e && i in e.open
    ensures IsRun(db, ss') && Interleaves(db, ss') && Final(db, ss') == e'
    ensures e' == e.(open := map[i := e.open[i]])
    decreases |e.open.Keys|
  {
    if j :| j in e.open && j != i {
      ss', e' := Then(db, ss, e, Rollback(j));
      assert e'.open.Keys == e.open.Keys - {j};
      ss', e' := OthersRollBack(db, ss', e', i);
    } else {
      assert e.open == map[i := e.open[i]];
      ss', e' := ss, e;
    }
  }

  /** A token longer than all of these. */
  lemma {:induction false} NewToken(used: set<string>) returns (token: string)
    ensures token != "" && forall u :: u in used ==> |u| < |token|
  {
    token := "x";
    if u :| u in used {
      var t := NewToken(used - {u});
      token := t + u;
    }
  }

  /** A rotation that missed its token and finds it live when it looks again can break both promises. It
      falls through and fetches the row; a second rotation replaces the token while the first holds no lock;
      then the first replaces it too. */
  lemma FallingThroughForks(db: Db, i: nat) returns (ss: seq<Step>)
    requires i in db.open && db.open[i].pc.Missed? && !db.open[i].marked && Live(db, db.open[i].current)
    ensures IsRun(db, ss) && Interleaves(db, ss)
    ensures !OneLivePerFamily(Final(db, ss)) && !OneSuccessor(Final(db, ss))
  {
    var t := db.open[i];
    var row := db.rows[t.current];
    var e;
    ss, e := OthersRollBack(db, [], db, i);
    ss, e := Then(db, ss, e, Refetch(i));
    ss, e := Then(db, ss, e, Fetch(i));
    assert e.open == map[i := t.(pc := Fetched(row))] && e.rows == db.rows;
    var token := NewToken(db.rows.Keys + {t.next, t.current});
    ss, e := SecondRotation(db, ss, e, i, token);
    ss := SecondSuccessor(db, ss, e, i, token);
  }

  lemma SecondSuccessor(db: Db, ss: seq<Step>, e: Db, i: nat, token: string) returns (ss': seq<Step>)
    requires IsRun(db, ss) && Interleaves(db, ss) && Final(db, ss) == e
    requires e.open.Keys == {i} && e.open[i].pc.Fetched? && !e.open[i].marked && token != e.open[i].next
    requires Live(e, token) && e.rows[token].family == e.open[i].pc.row.family
    requires e.issued != [] && e.issued[|e.issued| - 1].0 == e.open[i].pc.row.id
    ensures IsRun(db, ss') && Interleaves(db, ss')
    ensures !OneLivePerFamily(Final(db, ss')) && !OneSuccessor(Final(db, ss'))
  {
    var t, d := e.open[i], e;
    ss', d := Then(db, ss, d, Remove({t.next}));
    assert d.open == e.open && d.issued == e.issued && Live(d, token) && t.next !in d.rows;
    ss', d := Then(db, ss', d, Insert(i));
    assert d.open.Keys == {i} && d.issued == e.issued && Live(d, token) && d.open[i].pc == Inserted(t.pc.row);
    ss', d := Then(db, ss', d, Commit(i));
    assert d.issued == e.issued + [(t.pc.row.id, e.nextId)];
    assert !OneLivePerFamily(d) by {
      assert Live(d, token) && Live(d, t.next) && d.rows[token].family == d.rows[t.next].family;
    }
    assert !OneSuccessor(d) by {
      var n := |e.issued|;
      assert d.issued[n - 1].0 == d.issued[n].0;
    }
  }

  lemma SecondRotation(db: Db, ss: seq<Step>, e: Db, i: nat, token: string) returns (ss': seq<Step>, e': Db)
    requires IsRun(db, ss) && Interleaves(db, ss) && Final(db, ss) == e
    requires e.open.Keys == {i} && e.open[i].pc.Fetched? && !e.open[i].marked
    requires Live(e, e.open[i].current) && token !in e.rows && token != e.open[i].current
    ensures IsRun(db, ss') && Interleaves(db, ss') && Final(db, ss') == e'
    ensures var row := e.rows[e.open[i].current];
            && e'.open == e.open
            && e'.rows == e.rows[e.open[i].current := row.(used := true)][token := Row(e.nextId, row.family, false, 0)]
            && e'.issued == e.issued + [(row.id, e.nextId)]
  {
    var j, current := i + 1, e.open[i].current;
    ss', e' := Then(db, ss, e, Begin(j, current, token, 0));
    assert e' == e.(open := e.open[j := Rotation(current, token, 0, Start, false)]);
    ss', e' := Then(db, ss', e', Mark(j));
    assert e' == e.(open := e.open[j := Rotation(current, token, 0, Ready, true)]);
    ss', e' := SecondIssues(db, ss', e', i, j);
    assert e'.open == e.open;
  }

  lemma SecondIssues(db: Db, ss: seq<Step>, e: Db, i: nat, j: nat) returns (ss': seq<Step>, e': Db)
    requires IsRun(db, ss) && Interleaves(db, ss) && Final(db, ss) == e
    requires i != j && e.open.Keys == {i, j} && e.open[i].pc.Fetched? && !e.open[i].marked
    requires e.open[j].pc.Ready? && e.open[j].marked
    requires e.open[j].current in e.rows && e.open[j].next !in e.rows
    ensures IsRun(db, ss') && Interleaves(db, ss') && Final(db, ss') == e'
    ensures var t := e.open[j];
            var row := e.rows[t.current];
            && e'.open == e.open - {j}
            && e'.rows == e.rows[t.current := row.(used := true)]
                                [t.next := Row(e.nextId, row.family, false, t.expiresAt)]
            && e'.issued == e.issued + [(row.id, e.nextId)]
  {
    var t := e.open[j];
    var row := e.rows[t.current];
    ss', e' := Then(db, ss, e, Fetch(j));
    assert e' == e.(open := e.open[j := t.(pc := Fetched(row))]);
    ss', e' := Then(db, ss', e', Insert(j));
    assert e' == e.(open := e.open[j := t.(pc := Inserted(row))]);
    ss', e' := Then(db, ss', e', Commit(j));
  }

  /** The step that stores a token too early leaves a rotation behind that will find it. */
  lemma EarlyStoreFound(db: Db, s: Step) returns (j: nat)
    requires Inv(db) && Enabled(db, s) && !NotEarly(db, s)
    ensures var e := Do(db, s); j in e.open && e.open[j].pc.Missed? && !e.open[j].marked && Live(e, e.open[j].current)
  {
    if s.Login? {
      j :| j in db.open && db.open[j].pc.Missed? && db.open[j].current == s.token;
    } else {
      CommitMovesLife(db, s.tx);
      j :| j in db.open && db.open[j].pc.Missed? && db.open[j].current == db.open[s.tx].next;
    }
    assert Holds(db, db.open[j]);
  }

  /** The promise survives a step, and everything that may follow it, if and only if the step stores no token
      that a rotation has missed and is about to look for again. */
  lemma StaysSafeIff(db: Db, s: Step)
    requires Inv(db) && Enabled(db, s)
    ensures StaysSafe(Do(db, s)) <==> NotEarly(db, s)
  {
    var e := Do(db, s);
    if NotEarly(db, s) {
      StepKeepsInv(db, s);
      forall ss | IsRun(e, ss) ensures Interleaves(e, ss) && Safe(Final(e, ss)) {
        RunIsSafe(e, ss);
      }
    } else {
      var j := EarlyStoreFound(db, s);
      var ss := FallingThroughForks(e, j);
      assert IsRun(e, ss) && !Safe(Final(e, ss));
    }
  }

  /** The promise is safe in every state on the way. */
  ghost predicate AlwaysStaysSafe(db: Db, ss: seq<Step>)
    requires Interleaves(db, ss)
    decreases |ss|
  {
    StaysSafe(db) && (ss == [] || AlwaysStaysSafe(Do(db, ss[0]), ss[1..]))
  }

  /** Over every interleaving: the promise holds in every state, and in all that may follow from there, if
      and only if no token is ever stored too early. */
  lemma {:induction false} InterleavingSafeIff(db: Db, ss: seq<Step>)
    requires Inv(db) && Interleaves(db, ss)
    ensures AlwaysStaysSafe(db, ss) <==> IsRun(db, ss)
    decreases |ss|
  {
    forall tt | IsRun(db, tt) ensures Interleaves(db, tt) && Safe(Final(db, tt)) {
      RunIsSafe(db, tt);
    }
    if ss != [] {
      StaysSafeIff(db, ss[0]);
      if NotEarly(db, ss[0]) {
        StepKeepsInv(db, ss[0]);
        InterleavingSafeIff(Do(db, ss[0]), ss[1..]);
      } else {
        assert !AlwaysStaysSafe(Do(db, ss[0]), ss[1..]);
      }
    }
  }

  /** It does happen, from the empty table: a rotation is presented with a token and misses it, the login that
      stores the token commits, the rotation looks again and runs to its end, and the family has two live
      tokens. */
  lemma EarlyStoreHappens() returns (ss: seq<Step>)
    ensures Interleaves(EMPTY, ss) && !IsRun(EMPTY, ss)
    ensures var e := Final(EMPTY, ss);
            && e.open == map[] && Live(e, "a") && Live(e, "b") && e.rows["a"].family == e.rows["b"].family
            && !OneLivePerFamily(e)
  {
    var e;
    ss, e := Then(EMPTY, [], EMPTY, Begin(0, "a", "b", 9));
    ss, e := Then(EMPTY, ss, e, Mark(0));
    ss, e := Then(EMPTY, ss, e, Login("a", "f", 9));
    ss, e := Then(EMPTY, ss, e, Refetch(0));
    ss, e := Then(EMPTY, ss, e, Fetch(0));
    ss, e := Then(EMPTY, ss, e, Insert(0));
    ss, e := Then(EMPTY, ss, e, Commit(0));
    assert Live(e, "a") && Live(e, "b") && "a" != "b";
  }

  // ---------------------------------------------------------------- reuse

  /** A rotation that presents a used token deletes the family and throws; the throw takes the deletion
      back. From the check to the end, no step of it changes the committed table. */
  lemma ReuseLeavesTableAlone(db: Db, i: nat)
    requires i in db.open && db.open[i].pc.Missed? && db.open[i].current in db.rows
    requires db.rows[db.open[i].current].used
    ensures var e := Do(Do(Do(db, Refetch(i)), DeleteFamily(i)), Rollback(i));
            e.rows == db.rows && e.issued == db.issued && e.open == db.open - {i}
    ensures var family := db.rows[db.open[i].current].family;
            Do(Do(db, Refetch(i)), DeleteFamily(i)).open[i].pc == Failed(ReuseDetected, FamilyRows(db, family))
            && FamilyRows(db, family) != {}
  {
    var t := db.open[i].current;
    assert t in FamilyRows(db, db.rows[t].family);
    var e := Do(Do(Do(db, Refetch(i)), DeleteFamily(i)), Rollback(i));
    assert e.open == db.open - {i};
  }

  // ---------------------------------------------------------------- the service

  const FAMILY_TTL_MS := 30 * 24 * 60 * 60 * 1000

  /** The service with its calls made one after the other, each running its statements in order. */
  class TokenFamilyService {
    var db: Db

    ghost predicate Valid()
      reads this
    {
      Inv(db) && db.open == map[]
    }

    constructor ()
      ensures Valid() && db == EMPTY
    {
      db := EMPTY;
    }

    /** Stores the first token of a new family; a token that is stored already violates the unique
        index. */
    method CreateTokenFamily(token: string, expiresAt: int, familyId: string) returns (r: Result<string, Error>)
      requires Valid() && familyId !in db.families
      modifies this
      ensures Valid()
      ensures if token in old(db).rows then r == Err(UniqueViolation) && db == old(db)
              else r == Ok(familyId)
                   && db.rows == old(db).rows[token := Row(old(db).nextId, familyId, false, expiresAt)]
    {
      if token in db.rows { return Err(UniqueViolation); }
      StepKeepsInv(db, Login(token, familyId, expiresAt));
      db := Do(db, Login(token, familyId, expiresAt));
      return Ok(familyId);
    }

    /** Rotates a live token. Every failure, reuse included, leaves the table as it was. */
    method RotateTokenFamily(current: string, next: string, expiresAt: int) returns (r: Result<string, Error>)
      requires Valid()
      modifies this
      ensures Valid()
      ensures r.Err? ==> db.rows == old(db).rows && db.issued == old(db).issued
      ensures current !in old(db).rows <==> r == Err(InvalidToken)
      ensures current in old(db).rows && old(db).rows[current].used <==> r == Err(ReuseDetected)
      ensures Live(old(db), current) ==>
                var row := old(db).rows[current];
                if next in old(db).rows then r == Err(UniqueViolation)
                else && r == Ok(row.family)
                     && db.rows == old(db).rows[current := row.(used := true)]
                                               [next := Row(old(db).nextId, row.family, false, expiresAt)]
                     && db.issued == old(db).issued + [(row.id, old(db).nextId)]
    {
      Advance(Begin(0, current, next, expiresAt));
      Advance(Mark(0));
      if db.open[0].pc.Missed? {
        var error := Refuse();
        return Err(error);
      }
      r := Replace();
    }

    /** The statements after an updateMany that matched no row. */
    method Refuse() returns (error: Error)
      requires Inv(db) && db.open.Keys == {0} && db.open[0].pc.Missed?
      modifies this
      ensures Valid() && db.rows == old(db).rows && db.issued == old(db).issued && db.nextId == old(db).nextId
      ensures error == if old(db).open[0].current in db.rows then ReuseDetected else InvalidToken
    {
      Advance(Refetch(0));
      if db.open[0].pc.Doomed? { Advance(DeleteFamily(0)); }
      error := db.open[0].pc.error;
      Advance(Rollback(0));
    }

    /** The statements after an updateMany that marked the token. */
    method Replace() returns (r: Result<string, Error>)
      requires Inv(db) && db.open.Keys == {0} && db.open[0].pc.Ready?
      modifies this
      ensures Valid()
      ensures var t := old(db).open[0];
              && t.current in old(db).rows
              && var row := old(db).rows[t.current];
                 if t.next in old(db).rows
                 then r == Err(UniqueViolation) && db.rows == old(db).rows && db.issued == old(db).issued
                 else && r == Ok(row.family)
                      && db.rows == old(db).rows[t.current := row.(used := true)]
                                                [t.next := Row(old(db).nextId, row.family, false, t.expiresAt)]
                      && db.issued == old(db).issued + [(row.id, old(db).nextId)]
    {
      Advance(Fetch(0));
      var family := db.open[0].pc.row.family;
      Advance(Insert(0));
      if db.open[0].pc.Failed? {
        r := Err(db.open[0].pc.error);
        Advance(Rollback(0));
      } else {
        Advance(Commit(0));
        r := Ok(family);
      }
    }

    /** Runs one statement of the transaction. */
    method Advance(s: Step)
      requires Inv(db) && Enabled(db, s) && NotEarly(db, s)
      requires Moves(s) || s.Begin? || s.Commit? || s.Rollback?
      modifies this
      ensures Inv(db) && db == Do(old(db), s)
    {
      StepKeepsInv(db, s);
      db := Do(db, s);
    }

    method InvalidateFamily(familyId: string)
      requires Valid()
      modifies this
      ensures Valid()
      ensures forall t :: t in db.rows <==> t in old(db).rows && old(db).rows[t].family != familyId
      ensures forall t :: t in db.rows ==> db.rows[t] == old(db).rows[t]
    {
      StepKeepsInv(db, Remove(FamilyRows(db, familyId)));
      db := Do(db, Remove(FamilyRows(db, familyId)));
    }

    /** Deletes what expired more than 30 days ago, and says how many rows that was. */
    method PruneExpiredFamilies(now: int) returns (deleted: nat)
      requires Valid()
      modifies this
      ensures Valid()
      ensures forall t :: t in db.rows <==> t in old(db).rows && old(db).rows[t].expiresAt >= now - 2592000000
      ensures forall t :: t in db.rows ==> db.rows[t] == old(db).rows[t]
      ensures deleted == |old(db).rows| - |db.rows|
    {
      var cutoff := now - FAMILY_TTL_MS;
      var gone := set t | t in db.rows && db.rows[t].expiresAt < cutoff;
      deleted := |gone|;
      StepKeepsInv(db, Remove(gone));
      assert |(db.rows - gone).Keys| + |gone| == |db.rows.Keys| by {
        assert (db.rows - gone).Keys + gone == db.rows.Keys;
      }
      db := Do(db, Remove(gone));
    }
  }
}
