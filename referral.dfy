/**
 * The referral page (reffera.php): draw keys until one is not yet in the
 * `refferal` table, insert it for the session's user, set that user's `ork`
 * flag, then show the key stored for that user.
 *
 * The two tables are state of a Database object. Every prepared statement's
 * fate (runs, fails to prepare, fails to execute) is an oracle parameter,
 * as is the random_int stream that KeyGen consumes.
 */
module Referral {
  import opened Wrappers
  import opened KeyGen

  /** A row of the `refferal` table. */
  datatype Row = Row(userId: int, referralKey: string)

  /** The columns of a `users` row that the two pages read or write. */
  datatype User = User(username: string, passwordHash: string, ork: bool)

  /** Both tables at one moment. `users` is the same table that login.php
      reads through Login.UserRow (there its password column is `hashedPassword`). */
  datatype Tables = Tables(refferal: seq<Row>, users: map<int, User>)

  /** What the database does with one prepared statement. */
  datatype StmtStatus = Executes | PrepareFails | ExecuteFails

  /** The Exception the helpers throw when prepare() or execute() fails. */
  datatype DbException = PrepareFailed | ExecuteFailed

  function Thrown(status: StmtStatus): DbException
    requires status != Executes
  {
    if status == PrepareFails then PrepareFailed else ExecuteFailed
  }

  // ---------------------------------------------------------------------
  // Queries over the `refferal` rows
  // ---------------------------------------------------------------------

  /** The referral_key column, in row order. */
  function ReferralKeys(rows: seq<Row>): (keys: seq<string>)
    ensures |keys| == |rows|
    ensures forall i :: 0 <= i < |rows| ==> keys[i] == rows[i].referralKey
  {
    if rows == [] then [] else [rows[0].referralKey] + ReferralKeys(rows[1..])
  }

  /** SELECT COUNT(*) FROM refferal WHERE referral_key = key */
  function CountKey(rows: seq<Row>, key: string): nat
  {
    if rows == [] then 0
    else (if rows[0].referralKey == key then 1 else 0) + CountKey(rows[1..], key)
  }

  /** The count is the number of times `key` occurs in the referral_key column. */
  lemma {:induction false} CountKeyOccurrences(rows: seq<Row>, key: string)
    ensures CountKey(rows, key) == multiset(ReferralKeys(rows))[key]
  {
    if rows != [] {
      CountKeyOccurrences(rows[1..], key);
      assert ReferralKeys(rows) == [rows[0].referralKey] + ReferralKeys(rows[1..]);
    }
  }

  /** No row carries `key`. */
  predicate KeyUnused(rows: seq<Row>, key: string) {
    forall i :: 0 <= i < |rows| ==> rows[i].referralKey != key
  }

  /** The count that isKeyUnique compares with 0 is zero exactly when no row holds the key. */
  lemma {:induction false} CountKeyZero(rows: seq<Row>, key: string)
    ensures CountKey(rows, key) == 0 <==> KeyUnused(rows, key)
  {
    if rows != [] {
      CountKeyZero(rows[1..], key);
      assert forall i :: 1 <= i < |rows| ==> rows[i] == rows[1..][i - 1];
    }
  }

  /** Every referral key occurs in at most one row. */
  predicate KeysDistinct(rows: seq<Row>) {
    forall i, j :: 0 <= i < j < |rows| ==> rows[i].referralKey != rows[j].referralKey
  }

  /** How many rows belong to `userId`. */
  function CountOwner(rows: seq<Row>, userId: int): (n: nat)
    ensures n == 0 <==> forall i :: 0 <= i < |rows| ==> rows[i].userId != userId
  {
    if rows == [] then 0
    else
      assert forall i :: 1 <= i < |rows| ==> rows[i] == rows[1..][i - 1];
      (if rows[0].userId == userId then 1 else 0) + CountOwner(rows[1..], userId)
  }

  /** Appending a row adds one to its owner's count and nothing to anyone else's. */
  lemma {:induction false} CountOwnerAppend(rows: seq<Row>, row: Row, userId: int)
    ensures CountOwner(rows + [row], userId)
         == CountOwner(rows, userId) + (if row.userId == userId then 1 else 0)
  {
    if rows != [] {
      assert (rows + [row])[1..] == rows[1..] + [row];
      CountOwnerAppend(rows[1..], row, userId);
    }
  }

  /** The key of the first row (in table order) that belongs to `userId`. */
  function FirstKeyOf(rows: seq<Row>, userId: int): (r: Option<string>)
    ensures r.None? <==> forall i :: 0 <= i < |rows| ==> rows[i].userId != userId
    ensures r.Some? ==> Row(userId, r.value) in rows
  {
    if rows == [] then None
    else
      assert forall i :: 1 <= i < |rows| ==> rows[i] == rows[1..][i - 1];
      if rows[0].userId == userId then Some(rows[0].referralKey)
      else FirstKeyOf(rows[1..], userId)
  }

  /** A row appended later never displaces the first key a user already has. */
  lemma {:induction false} FirstKeyOfAppend(rows: seq<Row>, row: Row, userId: int)
    ensures FirstKeyOf(rows + [row], userId)
         == if FirstKeyOf(rows, userId).Some? then FirstKeyOf(rows, userId)
            else if row.userId == userId then Some(row.referralKey)
            else None
  {
    if rows != [] {
      assert (rows + [row])[1..] == rows[1..] + [row];
      FirstKeyOfAppend(rows[1..], row, userId);
    }
  }

  // ---------------------------------------------------------------------
  // Updates of the `users` map
  // ---------------------------------------------------------------------

  /** UPDATE users SET ork = true WHERE id = userId: only that user's flag changes. */
  function SetOrk(users: map<int, User>, userId: int): (r: map<int, User>)
    ensures r.Keys == users.Keys
    ensures forall id :: id in users && id != userId ==> r[id] == users[id]
    ensures userId in users ==>
              r[userId].ork && r[userId].username == users[userId].username
              && r[userId].passwordHash == users[userId].passwordHash
  {
    if userId in users then users[userId := users[userId].(ork := true)] else users
  }

  // ---------------------------------------------------------------------
  // The generate-until-unique loop, as a specification
  // ---------------------------------------------------------------------

  /** The key generateUniqueKey() builds on attempt `attempt`: attempt n uses
      draws 16n .. 16n+15 of the random stream. */
  function Candidate(rng: seq<CharIndex>, attempt: nat): (key: string)
    requires DefaultKeyLength * (attempt + 1) <= |rng|
    ensures |key| == DefaultKeyLength
    ensures forall c :: c in key ==> IsAlphanumeric(c)
  {
    KeyFromDraws(rng[DefaultKeyLength * attempt .. DefaultKeyLength * (attempt + 1)])
  }

  /** How the do-while loop ends. Exhausted means the supplied draws or
      statement outcomes ran out before a key was accepted; the page itself
      would keep looping. */
  datatype KeySearch =
    | Found(key: string, attempt: nat)
    | CheckThrew(error: DbException)
    | Exhausted

  /**
   * The do-while loop from attempt `attempt` on: generate a candidate, ask
   * isKeyUnique (whose statement fares as checks[attempt] says), stop on the
   * first candidate with count 0, and let an exception escape.
   */
  function SearchFrom(rows: seq<Row>, rng: seq<CharIndex>, checks: seq<StmtStatus>, attempt: nat): (r: KeySearch)
    decreases |checks| - attempt
    ensures r.Found? ==> attempt <= r.attempt < |checks| && DefaultKeyLength * (r.attempt + 1) <= |rng|
    ensures r.Found? ==> r.key == Candidate(rng, r.attempt)
  {
    if attempt >= |checks| || |rng| < DefaultKeyLength * (attempt + 1) then Exhausted
    else if checks[attempt] != Executes then CheckThrew(Thrown(checks[attempt]))
    else
      var key := Candidate(rng, attempt);
      if CountKey(rows, key) == 0 then Found(key, attempt)
      else SearchFrom(rows, rng, checks, attempt + 1)
  }

  /** When the loop exits with a key, the key is in no row, and every
      earlier candidate was checked and found in use. */
  lemma {:induction false} SearchFromFound(rows: seq<Row>, rng: seq<CharIndex>, checks: seq<StmtStatus>, attempt: nat)
    requires SearchFrom(rows, rng, checks, attempt).Found?
    decreases |checks| - attempt
    ensures var r := SearchFrom(rows, rng, checks, attempt);
            && KeyUnused(rows, r.key)
            && forall j :: attempt <= j < r.attempt ==>
                 checks[j] == Executes && !KeyUnused(rows, Candidate(rng, j))
  {
    var key := Candidate(rng, attempt);
    CountKeyZero(rows, key);
    if CountKey(rows, key) != 0 {
      SearchFromFound(rows, rng, checks, attempt + 1);
    }
  }

  /** An exception out of the loop is the one a failed isKeyUnique statement throws. */
  lemma {:induction false} SearchFromThrew(rows: seq<Row>, rng: seq<CharIndex>, checks: seq<StmtStatus>, attempt: nat)
    requires SearchFrom(rows, rng, checks, attempt).CheckThrew?
    decreases |checks| - attempt
    ensures var r := SearchFrom(rows, rng, checks, attempt);
            exists j :: attempt <= j < |checks| && checks[j] != Executes && r.error == Thrown(checks[j])
  {
    if checks[attempt] == Executes {
      SearchFromThrew(rows, rng, checks, attempt + 1);
    }
  }

  /** One turn of the loop: `key`, built from the draws of attempt `attempt`,
      decides the outcome, or the search goes on with the next attempt. */
  lemma SearchFromStep(rows: seq<Row>, rng: seq<CharIndex>, checks: seq<StmtStatus>, attempt: nat, key: string)
    requires attempt < |checks| && DefaultKeyLength * (attempt + 1) <= |rng|
    requires key == KeyFromDraws(rng[DefaultKeyLength * attempt .. DefaultKeyLength * (attempt + 1)][..DefaultKeyLength])
    ensures SearchFrom(rows, rng, checks, attempt)
         == if checks[attempt] != Executes then CheckThrew(Thrown(checks[attempt]))
            else if KeyUnused(rows, key) then Found(key, attempt)
            else SearchFrom(rows, rng, checks, attempt + 1)
  {
    var draws := rng[DefaultKeyLength * attempt .. DefaultKeyLength * (attempt + 1)];
    assert draws[..DefaultKeyLength] == draws;
    assert key == Candidate(rng, attempt);
    CountKeyZero(rows, key);
  }

  // ---------------------------------------------------------------------
  // The page's output and the whole script, as a specification
  // ---------------------------------------------------------------------

  /** What the "Your Generated Referral key is:" paragraph shows. */
  datatype Retrieval =
    | Shown(key: string)
    | NoKeyFound           // "No referral key found for this user."
    | SelectPrepareFailed  // "Failed to prepare statement: ..." and exit

  /** The alert printed by the try block. */
  datatype Notice =
    | Saved(key: string)   // "Referral key generated and saved successfully"
    | SaveErrorAlert       // "An error occurred while generating the referral key."
    | Suppressed           // an exception was caught and `echo ""` ran

  datatype RefferaPage =
    | Fatal(error: DbException)  // isKeyUnique threw outside the try block
    | SearchExhausted            // the model's supply of draws ran out
    | Page(notice: Notice, shown: Retrieval)

  /**
   * SELECT referral_key FROM refferal WHERE user_id = ?, showing the first
   * row. execute() is not checked: when it fails get_result() gives false,
   * reading num_rows from false gives null, and `null > 0` is false.
   */
  function Retrieve(rows: seq<Row>, userId: int, status: StmtStatus): (r: Retrieval)
    ensures r.SelectPrepareFailed? <==> status == PrepareFails
    ensures r.Shown? ==> status == Executes && Row(userId, r.key) in rows
    ensures r.NoKeyFound? <==>
              status == ExecuteFails
              || (status == Executes && forall i :: 0 <= i < |rows| ==> rows[i].userId != userId)
  {
    if status.PrepareFails? then SelectPrepareFailed
    else if status.ExecuteFails? then NoKeyFound
    else
      var first := FirstKeyOf(rows, userId);
      if first.Some? then Shown(first.value) else NoKeyFound
  }

  /** The tables and the page after one request to reffera.php by the user `sessionId`. */
  function RefferaScript(t: Tables, sessionId: int, rng: seq<CharIndex>, checks: seq<StmtStatus>,
                         insertStatus: StmtStatus, updateStatus: StmtStatus, selectStatus: StmtStatus)
    : (r: (Tables, RefferaPage))
    // rows are never removed or rewritten, and at most one is added
    ensures |t.refferal| <= |r.0.refferal| <= |t.refferal| + 1
    ensures r.0.refferal[..|t.refferal|] == t.refferal
    // no user record is created or deleted
    ensures r.0.users.Keys == t.users.Keys
    // an exception escaping the uniqueness loop happens before any write
    ensures r.1.Fatal? ==> r.0 == t
    // the success alert names exactly the row that was added for the user
    ensures r.1.Page? && r.1.notice.Saved? ==> r.0.refferal == t.refferal + [Row(sessionId, r.1.notice.key)]
  {
    match SearchFrom(t.refferal, rng, checks, 0)
    case Exhausted => (t, SearchExhausted)
    case CheckThrew(e) => (t, Fatal(e))
    case Found(key, _) =>
      if insertStatus != Executes then
        (t, Page(Suppressed, Retrieve(t.refferal, sessionId, selectStatus)))
      else
        var rows := t.refferal + [Row(sessionId, key)];
        if updateStatus != Executes then
          (Tables(rows, t.users), Page(Suppressed, Retrieve(rows, sessionId, selectStatus)))
        else
          (Tables(rows, SetOrk(t.users, sessionId)), Page(Saved(key), Retrieve(rows, sessionId, selectStatus)))
  }

  // ---------------------------------------------------------------------
  // Properties of one run of the script
  // ---------------------------------------------------------------------

  /** A run appends at most one row: the user's new key, which is 16
      alphanumeric characters and was in no row before; the row goes in
      only when the loop found a key and the INSERT ran. */
  lemma {:induction false} ScriptRowEffect(t: Tables, sessionId: int, rng: seq<CharIndex>, checks: seq<StmtStatus>,
                        ins: StmtStatus, upd: StmtStatus, sel: StmtStatus)
    ensures var s := SearchFrom(t.refferal, rng, checks, 0);
            var t' := RefferaScript(t, sessionId, rng, checks, ins, upd, sel).0;
            if s.Found? && ins == Executes then
              && t'.refferal == t.refferal + [Row(sessionId, s.key)]
              && KeyUnused(t.refferal, s.key)
              && |s.key| == DefaultKeyLength
              && (forall c :: c in s.key ==> IsAlphanumeric(c))
            else t'.refferal == t.refferal
  {
    var s := SearchFrom(t.refferal, rng, checks, 0);
    if s.Found? {
      SearchFromFound(t.refferal, rng, checks, 0);
    }
  }

  /** The ork flag is set only for the session's user and only after the
      insert succeeded; otherwise `users` is untouched. */
  lemma ScriptOrkEffect(t: Tables, sessionId: int, rng: seq<CharIndex>, checks: seq<StmtStatus>,
                        ins: StmtStatus, upd: StmtStatus, sel: StmtStatus)
    ensures var s := SearchFrom(t.refferal, rng, checks, 0);
            var t' := RefferaScript(t, sessionId, rng, checks, ins, upd, sel).0;
            t'.users == if s.Found? && ins == Executes && upd == Executes
                        then SetOrk(t.users, sessionId) else t.users
  {
  }

  /** If no two rows shared a key before the run, none do after it
      (a single request, with no concurrent writer). */
  lemma {:induction false} ScriptKeepsKeysDistinct(t: Tables, sessionId: int, rng: seq<CharIndex>, checks: seq<StmtStatus>,
                                                   ins: StmtStatus, upd: StmtStatus, sel: StmtStatus)
    requires KeysDistinct(t.refferal)
    ensures KeysDistinct(RefferaScript(t, sessionId, rng, checks, ins, upd, sel).0.refferal)
  {
    var s := SearchFrom(t.refferal, rng, checks, 0);
    if s.Found? && ins == Executes {
      SearchFromFound(t.refferal, rng, checks, 0);
      var rows := t.refferal + [Row(sessionId, s.key)];
      forall i, j | 0 <= i < j < |rows|
        ensures rows[i].referralKey != rows[j].referralKey
      {
        if j == |t.refferal| {
          assert rows[i] == t.refferal[i];
        } else {
          assert rows[i] == t.refferal[i] && rows[j] == t.refferal[j];
        }
      }
    }
  }

  /** Nothing stops a second issuance: every successful run adds one more row
      for the user, whatever rows the user already has. */
  lemma ScriptAddsRowForUser(t: Tables, sessionId: int, rng: seq<CharIndex>, checks: seq<StmtStatus>,
                             ins: StmtStatus, upd: StmtStatus, sel: StmtStatus)
    requires SearchFrom(t.refferal, rng, checks, 0).Found? && ins == Executes
    ensures CountOwner(RefferaScript(t, sessionId, rng, checks, ins, upd, sel).0.refferal, sessionId)
         == CountOwner(t.refferal, sessionId) + 1
  {
    CountOwnerAppend(t.refferal, Row(sessionId, SearchFrom(t.refferal, rng, checks, 0).key), sessionId);
  }

  /** Two successful requests by the same user leave at least two rows for
      that user, although the page heading says a user gets one key. */
  lemma TwoRunsTwoRows(t: Tables, sessionId: int,
                       rng1: seq<CharIndex>, checks1: seq<StmtStatus>, upd1: StmtStatus, sel1: StmtStatus,
                       rng2: seq<CharIndex>, checks2: seq<StmtStatus>, upd2: StmtStatus, sel2: StmtStatus)
    requires SearchFrom(t.refferal, rng1, checks1, 0).Found?
    requires var t1 := RefferaScript(t, sessionId, rng1, checks1, Executes, upd1, sel1).0;
             SearchFrom(t1.refferal, rng2, checks2, 0).Found?
    ensures var t1 := RefferaScript(t, sessionId, rng1, checks1, Executes, upd1, sel1).0;
            var t2 := RefferaScript(t1, sessionId, rng2, checks2, Executes, upd2, sel2).0;
            CountOwner(t2.refferal, sessionId) >= 2
  {
    var t1 := RefferaScript(t, sessionId, rng1, checks1, Executes, upd1, sel1).0;
    ScriptAddsRowForUser(t, sessionId, rng1, checks1, Executes, upd1, sel1);
    ScriptAddsRowForUser(t1, sessionId, rng2, checks2, Executes, upd2, sel2);
  }

  /** With the SELECT running, the page shows the user's first key: the new
      one when the user had none, the OLD one when the user already had a
      row, even though the alert just announced a different, new key. */
  lemma {:induction false} ScriptShowsFirstKey(t: Tables, sessionId: int, rng: seq<CharIndex>, checks: seq<StmtStatus>,
                                               ins: StmtStatus, upd: StmtStatus)
    requires SearchFrom(t.refferal, rng, checks, 0).Found?
    ensures var s := SearchFrom(t.refferal, rng, checks, 0);
            var page := RefferaScript(t, sessionId, rng, checks, ins, upd, Executes).1;
            page.Page? &&
            page.shown == match FirstKeyOf(t.refferal, sessionId)
                          case Some(earlier) => Shown(earlier)
                          case None => if ins == Executes then Shown(s.key) else NoKeyFound
  {
    var s := SearchFrom(t.refferal, rng, checks, 0);
    FirstKeyOfAppend(t.refferal, Row(sessionId, s.key), sessionId);
  }

  /** The "An error occurred" alert is never printed: both helpers either
      return true or throw, so the else branch of the && is dead. */
  lemma NoSaveErrorAlert(t: Tables, sessionId: int, rng: seq<CharIndex>, checks: seq<StmtStatus>,
                         ins: StmtStatus, upd: StmtStatus, sel: StmtStatus)
    ensures var page := RefferaScript(t, sessionId, rng, checks, ins, upd, sel).1;
            page.Page? ==> page.notice != SaveErrorAlert
  {
  }

  // ---------------------------------------------------------------------
  // The database and the script, step by step
  // ---------------------------------------------------------------------

  class Database {
    var refferal: seq<Row>
    var users: map<int, User>

    constructor (tables: Tables)
      ensures refferal == tables.refferal && users == tables.users
    {
      refferal := tables.refferal;
      users := tables.users;
    }

    function Snapshot(): Tables
      reads this
    {
      Tables(refferal, users)
    }

    /** isKeyUnique($key): COUNT(*) of rows with the key, compared with 0. */
    method IsKeyUnique(key: string, status: StmtStatus) returns (r: Result<bool, DbException>)
      ensures status == Executes ==> r == Success(KeyUnused(refferal, key))
      ensures status != Executes ==> r == Failure(Thrown(status))
    {
      if status != Executes {
        return Failure(Thrown(status));
      }
      var count := CountKey(refferal, key);
      CountKeyZero(refferal, key);
      return Success(count == 0);
    }

    /** insertReferralKey($userId, $referralKey): returns true or throws. */
    method InsertReferralKey(userId: int, referralKey: string, status: StmtStatus) returns (r: Result<bool, DbException>)
      modifies this`refferal
      ensures status == Executes ==> r == Success(true) && refferal == old(refferal) + [Row(userId, referralKey)]
      ensures status != Executes ==> r == Failure(Thrown(status)) && refferal == old(refferal)
    {
      if status != Executes {
        return Failure(Thrown(status));
      }
      refferal := refferal + [Row(userId, referralKey)];
      return Success(true);
    }

    /** updateUser($userId): returns true or throws. */
    method UpdateUser(userId: int, status: StmtStatus) returns (r: Result<bool, DbException>)
      modifies this`users
      ensures status == Executes ==> r == Success(true) && users == SetOrk(old(users), userId)
      ensures status != Executes ==> r == Failure(Thrown(status)) && users == old(users)
    {
      if status != Executes {
        return Failure(Thrown(status));
      }
      users := SetOrk(users, userId);
      return Success(true);
    }

    /** The do-while loop: generateUniqueKey() until isKeyUnique() holds. */
    method FindUniqueKey(rng: seq<CharIndex>, checks: seq<StmtStatus>) returns (r: KeySearch)
      ensures r == SearchFrom(refferal, rng, checks, 0)
    {
      ghost var outcome := SearchFrom(refferal, rng, checks, 0);
      var attempt, from := 0, 0;
      while true
        invariant 0 <= attempt <= |checks| && from == DefaultKeyLength * attempt
        invariant SearchFrom(refferal, rng, checks, attempt) == outcome
        decreases |checks| - attempt
      {
        if attempt == |checks| || |rng| < from + DefaultKeyLength {
          return Exhausted;
        }
        var referralKey := GenerateUniqueKey(rng[from..from + DefaultKeyLength]);
        SearchFromStep(refferal, rng, checks, attempt, referralKey);
        var unique := IsKeyUnique(referralKey, checks[attempt]);
        if unique.Failure? {
          return CheckThrew(unique.error);
        }
        if unique.value {
          return Found(referralKey, attempt);
        }
        attempt, from := attempt + 1, from + DefaultKeyLength;
      }
    }

    /** The retrieval block at the bottom of the page. */
    method RetrieveKey(userId: int, status: StmtStatus) returns (shown: Retrieval)
      ensures shown == Retrieve(refferal, userId, status)
    {
      if status == PrepareFails {
        return SelectPrepareFailed;
      }
      if status == ExecuteFails {
        return NoKeyFound;
      }
      var first := FirstKeyOf(refferal, userId);
      if first.Some? {
        shown := Shown(first.value);
      } else {
        shown := NoKeyFound;
      }
    }

    /** One request to reffera.php by the logged-in user `sessionId`. */
    method GenerateAndStore(sessionId: int, rng: seq<CharIndex>, checks: seq<StmtStatus>,
                            insertStatus: StmtStatus, updateStatus: StmtStatus, selectStatus: StmtStatus)
      returns (page: RefferaPage)
      modifies this
      ensures (Snapshot(), page)
           == RefferaScript(old(Snapshot()), sessionId, rng, checks, insertStatus, updateStatus, selectStatus)
    {
      var search := FindUniqueKey(rng, checks);
      if search.Exhausted? {
        return SearchExhausted;
      }
      if search.CheckThrew? {
        return Fatal(search.error);
      }
      var referralKey := search.key;
      var userId := sessionId;
      var notice: Notice;
      var inserted := InsertReferralKey(userId, referralKey, insertStatus);
      if inserted.Failure? {
        notice := Suppressed;
      } else if !inserted.value {
        notice := SaveErrorAlert;
      } else {
        var updated := UpdateUser(userId, updateStatus);
        if updated.Failure? {
          notice := Suppressed;
        } else if updated.value {
          notice := Saved(referralKey);
        } else {
          notice := SaveErrorAlert;
        }
      }
      var shown := RetrieveKey(userId, selectStatus);
      page := Page(notice, shown);
    }
  }
}
