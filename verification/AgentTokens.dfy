/** Issuing and checking the per-agent API tokens: src/agent-tokens.ts over src/db/api-tokens.ts. A token stands for
    its hash, a number; what is drawn at random is an argument. */
module AgentTokens {
  import opened Options

  datatype Row = Row(id: nat, hash: nat, name: string, role: string, tenant: string, agent: Option<string>,
                     createdAt: int, expires: Option<int>, revoked: Option<int>, rotatedFrom: Option<nat>)

  datatype Db = Db(rows: seq<Row>, nextId: nat)

  /** Whose token: the name of its row, its role and the agent it belongs to. */
  datatype Spec = Spec(name: string, role: string, agent: Option<string>)

  /** The table's own constraints: the primary key and the unique hash. */
  ghost predicate Table(db: Db) {
    && (forall i, j :: 0 <= i < j < |db.rows| ==> db.rows[i].id != db.rows[j].id && db.rows[i].hash != db.rows[j].hash)
    && (forall i :: 0 <= i < |db.rows| ==> db.rows[i].id < db.nextId)
  }

  predicate Active(r: Row, name: string, now: int) {
    r.name == name && r.revoked.None? && (r.expires.None? || r.expires.value > now)
  }

  function ListActive(rows: seq<Row>, name: string, now: int): seq<Row> {
    if rows == [] then []
    else ListActive(rows[..|rows| - 1], name, now) +
         if Active(rows[|rows| - 1], name, now) then [rows[|rows| - 1]] else []
  }

  /** The first listed row with this hash. */
  function Find(rows: seq<Row>, hash: Option<nat>): Option<Row> {
    if hash.None? || rows == [] then None
    else if rows[0].hash == hash.value then Some(rows[0])
    else Find(rows[1..], hash)
  }

  function Revoke(rows: seq<Row>, id: nat, now: int): seq<Row> {
    seq(|rows|, i requires 0 <= i < |rows| => if rows[i].id == id then rows[i].(revoked := Some(now)) else rows[i])
  }

  /** Every active row of the name revoked. */
  function RevokeAll(rows: seq<Row>, name: string, now: int): seq<Row> {
    seq(|rows|, i requires 0 <= i < |rows| =>
      if Active(rows[i], name, now) then rows[i].(revoked := Some(now)) else rows[i])
  }

  /** What one replacement is asked to do. `held` is the hash the token file had. */
  datatype Request = Request(held: Option<nat>, minted: nat, spec: Spec, now: int)

  function Current(rows: seq<Row>, q: Request): Option<Row> {
    Find(ListActive(rows, q.spec.name, q.now), q.held)
  }

  /** The row a rotation mints: everything but the hash and the dates is the old row's. */
  function RotatedRow(c: Row, id: nat, minted: nat, now: int): Row {
    Row(id, minted, c.name, c.role, c.tenant, c.agent, now, None, None, Some(c.id))
  }

  function NewRow(db: Db, q: Request): Row {
    match Current(db.rows, q)
    case Some(c) => RotatedRow(c, db.nextId, q.minted, q.now)
    case None => Row(db.nextId, q.minted, q.spec.name, q.spec.role, "default", q.spec.agent, q.now, None, None, None)
  }

  /** The table after the replacing transaction commits. */
  function Replaced(db: Db, q: Request): Db {
    Db(RevokeAll(db.rows, q.spec.name, q.now) + [NewRow(db, q)], db.nextId + 1)
  }

  datatype Status = Issued | Kept | Rotated

  class TokenDb {
    var db: Db
    /** The tenants that exist. */
    var tenants: set<string>

    constructor (db: Db, tenants: set<string>)
      requires Table(db)
      ensures this.db == db && this.tenants == tenants
    {
      this.db, this.tenants := db, tenants;
    }

    method RevokeApiToken(id: nat, now: int)
      modifies this`db
      ensures db == old(db).(rows := Revoke(old(db).rows, id, now))
    {
      db := db.(rows := Revoke(db.rows, id, now));
    }

    /** None is the thrown error, after which the transaction has left nothing behind. */
    method RotateApiToken(c: Row, minted: nat, now: int) returns (r: Option<Row>)
      modifies this`db
      ensures r.Some? <==> c.tenant in tenants && exists i :: 0 <= i < |old(db).rows| && old(db).rows[i].id == c.id && old(db).rows[i].revoked.None?
      ensures r.None? ==> db == old(db)
      ensures r.Some? ==> r.value == RotatedRow(c, old(db).nextId, minted, now)
      ensures r.Some? ==> db == Db(Revoke(old(db).rows, c.id, now) + [r.value], old(db).nextId + 1)
    {
      if c.tenant !in tenants {
        return None;
      }
      if !(exists i :: 0 <= i < |db.rows| && db.rows[i].id == c.id && db.rows[i].revoked.None?) {
        return None;
      }
      r := Some(RotatedRow(c, db.nextId, minted, now));
      db := Db(Revoke(db.rows, c.id, now) + [r.value], db.nextId + 1);
    }

    /** None is a refused tenant: the transaction is rolled back. */
    method ReplaceActiveApiToken(q: Request) returns (r: Option<(Row, bool)>)
      requires Table(db)
      modifies this`db
      ensures r.Some? <==> NewRow(old(db), q).tenant in tenants
      ensures r.None? ==> db == old(db)
      ensures r.Some? ==> db == Replaced(old(db), q) && r.value == (NewRow(old(db), q), Current(old(db).rows, q).Some?)
    {
      hide *;
      ghost var was := db;
      var before := db;
      var active := ListActive(db.rows, q.spec.name, q.now);
      var current := Find(active, q.held);
      ReplacedIs(was, q);
      NoneRevoked(was, current, q.now);
      for k := 0 to |active|
        invariant db == Db(RevokedSome(was.rows, active[..k], current, q.now), was.nextId)
      {
        RevokeStep(was, active, k, current, q.now);
        if current.None? || active[k].id != current.value.id {
          RevokeApiToken(active[k].id, q.now);
        }
      }
      assert active[..|active|] == active;
      RevokedAll(was, q);
      if current.Some? {
        var row := RotateApiToken(current.value, q.minted, q.now);
        if row.None? {
          db := before;
          return None;
        }
        return Some((row.value, true));
      }
      if "default" !in tenants {
        db := before;
        return None;
      }
      var row := Row(db.nextId, q.minted, q.spec.name, q.spec.role, "default", q.spec.agent, q.now, None, None, None);
      db := Db(db.rows + [row], db.nextId + 1);
      return Some((row, false));
    }
  }

  // ---- issuing -----------------------------------------------------------

  function FileOf(files: map<string, nat>, name: string): Option<nat> {
    if name in files then Some(files[name]) else None
  }

  /** The row an unrotated call keeps: the active one the file holds. */
  function KeptRow(held: Option<nat>, rows: seq<Row>, spec: Spec, rotate: bool, now: int): Option<Row> {
    if rotate then None else Find(ListActive(rows, spec.name, now), held)
  }

  const OPERATOR := Spec("operator", "admin", None)

  function AgentSpec(id: string, mainId: string): Spec {
    if id == mainId then Spec("main-agent:" + id, "admin", Some(id)) else Spec("fleet-agent:" + id, "fleet_agent", Some(id))
  }

  datatype CheckStatus = Ok | Absent | UnknownHash | Revoked | WrongRole | MultipleActive | SharedMismatch | SharedInEnv

  datatype CheckRow = CheckRow(subject: string, status: CheckStatus)

  function CheckSpec(held: Option<nat>, rows: seq<Row>, spec: Spec, now: int): CheckStatus {
    var found := Find(rows, held);
    if held.None? then Absent
    else if found.None? then UnknownHash
    else if found.value.revoked.Some? || (found.value.expires.Some? && found.value.expires.value <= now) then Revoked
    else if found.value.role != spec.role || found.value.name != spec.name || found.value.agent != spec.agent then WrongRole
    else if |ListActive(rows, spec.name, now)| > 1 then MultipleActive
    else Ok
  }

  function SharedRows(shared: Option<nat>, inEnv: bool, rows: seq<Row>, now: int): seq<CheckRow> {
    (if shared.None? then []
     else [CheckRow("shared", if Find(ListActive(rows, "dashboard", now), shared).Some? then Ok else SharedMismatch)]) +
    if inEnv then [CheckRow("shared", SharedInEnv)] else []
  }

  /** The token files of one install over its database. */
  class Issuer {
    /** The hash each token name's file holds. */
    var files: map<string, nat>
    const tokens: TokenDb
    const mainId: string

    constructor (files: map<string, nat>, tokens: TokenDb, mainId: string)
      ensures this.files == files && this.tokens == tokens && this.mainId == mainId
    {
      this.files, this.tokens, this.mainId := files, tokens, mainId;
    }

    /** None is the thrown error; the file has been written by then. */
    method Issue(spec: Spec, rotate: bool, now: int, drawn: nat) returns (r: Option<(Status, nat)>)
      requires Table(tokens.db)
      modifies this`files, tokens`db
      ensures var held, was := FileOf(old(files), spec.name), old(tokens.db);
              var kept, q := KeptRow(held, was.rows, spec, rotate, now), Request(held, drawn, spec, now);
              if kept.Some? then r == Some((Kept, kept.value.id)) && files == old(files) && tokens.db == was
              else
                && files == old(files)[spec.name := drawn]
                && (r.Some? <==> NewRow(was, q).tenant in tokens.tenants)
                && (r.None? ==> tokens.db == was)
                && (r.Some? ==> tokens.db == Replaced(was, q) &&
                                r.value == (if Current(was.rows, q).Some? then Rotated else Issued, NewRow(was, q).id))
      ensures r.Some? && r.value.0 == Kept <==>
                && !rotate && spec.name in old(files)
                && exists row :: row in old(tokens.db).rows && Active(row, spec.name, now) && row.hash == old(files)[spec.name]
    {
      KeptIff(files, tokens.db.rows, spec, rotate, now);
      hide *;
      var held := FileOf(files, spec.name);
      KeptIs(held, tokens.db.rows, spec, rotate, now);
      if held.Some? && !rotate {
        var current := Find(ListActive(tokens.db.rows, spec.name, now), held);
        if current.Some? {
          return Some((Kept, current.value.id));
        }
      }
      files := files[spec.name := drawn];
      var made := tokens.ReplaceActiveApiToken(Request(held, drawn, spec, now));
      if made.None? {
        return None;
      }
      return Some((if made.value.1 then Rotated else Issued, made.value.0.id));
    }

    function Checked(spec: Spec, subject: string, now: int): CheckRow
      reads this, tokens
    {
      CheckRow(subject, CheckSpec(FileOf(files, spec.name), tokens.db.rows, spec, now))
    }

    /** One row per agent, then the operator's, then what the shared token adds. */
    method CheckAgentTokens(ids: seq<string>, now: int, includeOperator: bool, includeShared: bool, shared: Option<nat>, inEnv: bool)
      returns (rows: seq<CheckRow>, ok: bool)
      ensures |rows| >= |ids|
      ensures forall i :: 0 <= i < |ids| ==> rows[i] == Checked(AgentSpec(ids[i], mainId), ids[i], now)
      ensures rows[|ids|..] == (if includeOperator then [Checked(OPERATOR, "operator", now)] else []) +
                               if includeShared then SharedRows(shared, inEnv, tokens.db.rows, now) else []
      ensures forall i :: 0 <= i < |ids| ==> (rows[i].status == Absent <==> AgentSpec(ids[i], mainId).name !in files)
      ensures ok <==> forall r :: r in rows ==> r.status == Ok
    {
      AbsentIff(files, tokens.db.rows, now);
      hide *;
      rows := [];
      for k := 0 to |ids|
        invariant |rows| == k && forall i :: 0 <= i < k ==> rows[i] == Checked(AgentSpec(ids[i], mainId), ids[i], now)
      {
        rows := rows + [Checked(AgentSpec(ids[k], mainId), ids[k], now)];
      }
      ghost var agents := rows;
      if includeOperator {
        rows := rows + [Checked(OPERATOR, "operator", now)];
      }
      if includeShared {
        rows := rows + SharedRows(shared, inEnv, tokens.db.rows, now);
      }
      ok := forall r :: r in rows ==> r.status == Ok;
    }
  }

  lemma KeptIff(files: map<string, nat>, rows: seq<Row>, spec: Spec, rotate: bool, now: int)
    ensures KeptRow(FileOf(files, spec.name), rows, spec, rotate, now).Some? <==>
              && !rotate && spec.name in files
              && exists row :: row in rows && Active(row, spec.name, now) && row.hash == files[spec.name]
  {
    hide Active, ListActive, Find;
    ListedAre(rows, spec.name, now);
    FoundIs(ListActive(rows, spec.name, now), FileOf(files, spec.name));
    var found := Find(ListActive(rows, spec.name, now), FileOf(files, spec.name));
    if !rotate && found.Some? {
      assert found.value in rows && Active(found.value, spec.name, now) && found.value.hash == files[spec.name];
    }
  }

  lemma AbsentIff(files: map<string, nat>, rows: seq<Row>, now: int)
    ensures forall spec: Spec :: CheckSpec(FileOf(files, spec.name), rows, spec, now) == Absent <==> spec.name !in files
  {
    hide Find, ListActive;
  }

  lemma KeptIs(held: Option<nat>, rows: seq<Row>, spec: Spec, rotate: bool, now: int)
    ensures KeptRow(held, rows, spec, rotate, now) ==
            if held.Some? && !rotate then Find(ListActive(rows, spec.name, now), held) else None
  {
  }

  // ---- the loop over the active rows -------------------------------------

  ghost predicate Listed(list: seq<Row>, id: nat) {
    exists j :: 0 <= j < |list| && list[j].id == id
  }

  /** The rows after the listed ones, except the one to be rotated, were revoked. */
  ghost function RevokedSome(rows: seq<Row>, list: seq<Row>, current: Option<Row>, now: int): seq<Row> {
    seq(|rows|, i requires 0 <= i < |rows| =>
      if Listed(list, rows[i].id) && (current.None? || rows[i].id != current.value.id) then rows[i].(revoked := Some(now)) else rows[i])
  }

  lemma RevokeStep(db: Db, list: seq<Row>, k: nat, current: Option<Row>, now: int)
    requires k < |list|
    ensures var a, b := RevokedSome(db.rows, list[..k], current, now), RevokedSome(db.rows, list[..k + 1], current, now);
            b == if current.None? || list[k].id != current.value.id then Revoke(a, list[k].id, now) else a
  {
    var a, b := RevokedSome(db.rows, list[..k], current, now), RevokedSome(db.rows, list[..k + 1], current, now);
    forall id ensures Listed(list[..k + 1], id) <==> Listed(list[..k], id) || id == list[k].id { ListedMore(list, k, id); }
    hide Listed;
  }

  lemma ListedMore(list: seq<Row>, k: nat, id: nat)
    requires k < |list|
    ensures Listed(list[..k + 1], id) <==> Listed(list[..k], id) || id == list[k].id
  {
    var a, b := list[..k], list[..k + 1];
    if Listed(a, id) { var j :| 0 <= j < |a| && a[j].id == id; assert b[j].id == id; }
    if id == list[k].id { assert b[k].id == id; }
    if Listed(b, id) { var j :| 0 <= j < |b| && b[j].id == id; if j < k { assert a[j].id == id; } }
  }

  /** The list holds exactly the active rows. */
  lemma {:induction false} ListedAre(rows: seq<Row>, name: string, now: int)
    ensures forall r :: r in ListActive(rows, name, now) <==> r in rows && Active(r, name, now)
  {
    hide Active;
    if rows != [] {
      ListedAre(rows[..|rows| - 1], name, now);
      assert rows == rows[..|rows| - 1] + [rows[|rows| - 1]];
    }
  }

  lemma {:induction false} FoundIs(rows: seq<Row>, hash: Option<nat>)
    ensures match Find(rows, hash)
            case Some(r) => r in rows && hash == Some(r.hash)
            case None => hash.None? || forall r :: r in rows ==> r.hash != hash.value
  {
    if hash.Some? && rows != [] {
      FoundIs(rows[1..], hash);
      assert rows == [rows[0]] + rows[1..];
    }
  }

  lemma ListedIffActive(db: Db, name: string, now: int, i: nat)
    requires Table(db) && i < |db.rows|
    ensures Listed(ListActive(db.rows, name, now), db.rows[i].id) <==> Active(db.rows[i], name, now)
  {
    hide Active, ListActive;
    ListedAre(db.rows, name, now);
    var list, r := ListActive(db.rows, name, now), db.rows[i];
    if Active(r, name, now) {
      assert r in db.rows;
      var j :| 0 <= j < |list| && list[j] == r;
    }
    if Listed(list, r.id) {
      var j :| 0 <= j < |list| && list[j].id == r.id;
      assert list[j] in list;
      var m :| 0 <= m < |db.rows| && db.rows[m] == list[j];
      assert m == i;
    }
  }

  /** The loop, and the rotation of the remaining row when there is one, revoke exactly the active rows. */
  lemma RevokedAll(db: Db, q: Request)
    requires Table(db)
    ensures var current := Current(db.rows, q);
            var some := RevokedSome(db.rows, ListActive(db.rows, q.spec.name, q.now), current, q.now);
            && (current.None? ==> some == RevokeAll(db.rows, q.spec.name, q.now))
            && (current.Some? ==> Revoke(some, current.value.id, q.now) == RevokeAll(db.rows, q.spec.name, q.now))
            && (current.Some? ==> exists i :: 0 <= i < |some| && some[i].id == current.value.id && some[i].revoked.None?)
  {
    var list, current := ListActive(db.rows, q.spec.name, q.now), Current(db.rows, q);
    CurrentIs(db, q);
    forall i | 0 <= i < |db.rows| ensures Listed(list, db.rows[i].id) <==> Active(db.rows[i], q.spec.name, q.now) {
      ListedIffActive(db, q.spec.name, q.now, i);
    }
    hide Current, Listed, ListActive, Active;
    if current.Some? {
      var c :| 0 <= c < |db.rows| && db.rows[c] == current.value;
      var some := RevokedSome(db.rows, list, current, q.now);
      assert some[c].id == current.value.id && some[c].revoked.None?;
      OnlyRow(db, c);
      assert Revoke(some, current.value.id, q.now) == RevokeAll(db.rows, q.spec.name, q.now);
    }
  }

  lemma OnlyRow(db: Db, c: nat)
    requires Table(db) && c < |db.rows|
    ensures forall i :: 0 <= i < |db.rows| && i != c ==> db.rows[i].id != db.rows[c].id
  {
  }

  /** The rotated row is an active one of the name whose hash the file held. */
  lemma CurrentIs(db: Db, q: Request)
    ensures var c := Current(db.rows, q);
            && (c.Some? ==> c.value in db.rows && Active(c.value, q.spec.name, q.now) && q.held == Some(c.value.hash))
            && (c.Some? ==> c.value.revoked.None? && c.value.name == q.spec.name)
            && (c.None? && q.held.Some? ==> forall r :: r in db.rows && Active(r, q.spec.name, q.now) ==> r.hash != q.held.value)
  {
    hide Find, ListActive;
    ListedAre(db.rows, q.spec.name, q.now);
    FoundIs(ListActive(db.rows, q.spec.name, q.now), q.held);
  }

  lemma ReplacedIs(db: Db, q: Request)
    ensures var c := Find(ListActive(db.rows, q.spec.name, q.now), q.held);
            && c == Current(db.rows, q)
            && NewRow(db, q) == (if c.Some? then RotatedRow(c.value, db.nextId, q.minted, q.now)
                                 else Row(db.nextId, q.minted, q.spec.name, q.spec.role, "default", q.spec.agent, q.now, None, None, None))
            && (c.Some? ==> NewRow(db, q).tenant == c.value.tenant)
            && (c.None? ==> NewRow(db, q).tenant == "default")
            && Replaced(db, q) == Db(RevokeAll(db.rows, q.spec.name, q.now) + [NewRow(db, q)], db.nextId + 1)
  {
    hide Find, ListActive, RevokeAll;
  }

  lemma NoneRevoked(db: Db, current: Option<Row>, now: int)
    ensures RevokedSome(db.rows, [], current, now) == db.rows
  {
  }

  // ---- whose token is whose ----------------------------------------------

  /** Every agent has a token name of its own, no agent's is the operator's or the shared one's, and exactly the main agent's and
      the operator's are admin tokens. */
  lemma SpecsAreApart(a: string, b: string, mainId: string)
    ensures var s, t := AgentSpec(a, mainId), AgentSpec(b, mainId);
            && (s.name == t.name <==> a == b)
            && s.name != OPERATOR.name && s.name != "dashboard" && OPERATOR.name != "dashboard"
            && s.agent == Some(a) && (s.role == "admin" <==> a == mainId) && (s.role == "fleet_agent" <==> a != mainId)
            && OPERATOR.role == "admin" && OPERATOR.agent.None?
  {
    var s, t := AgentSpec(a, mainId).name, AgentSpec(b, mainId).name;
    assert s[0] == (if a == mainId then 'm' else 'f') && t[0] == (if b == mainId then 'm' else 'f');
    assert s[if a == mainId then 11 else 12..] == a && t[if b == mainId then 11 else 12..] == b;
    assert OPERATOR.name[0] == 'o' && "dashboard"[0] == 'd';
  }

  /** The shared token gets a row exactly when its file is there, `ok` exactly when an active row of its own name has its hash; and
      one more exactly when it also stands in the environment. */
  lemma SharedIff(shared: Option<nat>, inEnv: bool, rows: seq<Row>, now: int)
    ensures var out := SharedRows(shared, inEnv, rows, now);
            && |out| == (if shared.Some? then 1 else 0) + (if inEnv then 1 else 0)
            && (forall r :: r in out ==> r.subject == "shared")
            && (shared.Some? ==>
                  && out[0].status in {Ok, SharedMismatch}
                  && (out[0].status == Ok <==> exists r :: r in rows && Active(r, "dashboard", now) && r.hash == shared.value))
            && (inEnv ==> out[|out| - 1].status == SharedInEnv)
  {
    hide Active, Find, ListActive;
    var list := ListActive(rows, "dashboard", now);
    FoundIs(list, shared);
    ListedAre(rows, "dashboard", now);
    if shared.Some? && Find(list, shared).Some? {
      var r := Find(list, shared).value;
      assert r in rows && Active(r, "dashboard", now) && r.hash == shared.value;
    }
  }

  // ---- what the check answers --------------------------------------------

  ghost predicate Apart(list: seq<Row>) {
    forall i, j :: 0 <= i < j < |list| ==> list[i] != list[j]
  }

  lemma {:induction false} ListedApart(rows: seq<Row>, name: string, now: int)
    requires forall i, j :: 0 <= i < j < |rows| ==> rows[i].id != rows[j].id
    ensures Apart(ListActive(rows, name, now))
  {
    hide Active;
    if rows != [] {
      var n := |rows| - 1;
      ListedApart(rows[..n], name, now);
      ListedAre(rows[..n], name, now);
      var list := ListActive(rows[..n], name, now);
      forall i | 0 <= i < |list| ensures list[i] != rows[n] {
        assert list[i] in list;
        var m :| 0 <= m < n && rows[..n][m] == list[i];
        assert rows[m].id != rows[n].id;
      }
      var all := ListActive(rows, name, now);
      assert all == list || all == list + [rows[n]];
    }
  }

  /** What the check says of one subject, by the one row its file's hash belongs to: whether that row is dead comes first, then
      whose it is, then whether the name has another active row. */
  lemma CheckIs(held: Option<nat>, db: Db, spec: Spec, now: int)
    requires Table(db)
    ensures var status := CheckSpec(held, db.rows, spec, now);
            && (status == Absent <==> held.None?)
            && (status == UnknownHash <==> held.Some? && forall r :: r in db.rows ==> r.hash != held.value)
            && (forall r :: r in db.rows && held == Some(r.hash) ==>
                  var dead := r.revoked.Some? || (r.expires.Some? && r.expires.value <= now);
                  var other := exists x :: x in db.rows && x != r && Active(x, spec.name, now);
                  status == if dead then Revoked
                            else if Spec(r.name, r.role, r.agent) != spec then WrongRole
                            else if other then MultipleActive
                            else Ok)
  {
    FoundIs(db.rows, held);
    forall r | r in db.rows && held == Some(r.hash) ensures Find(db.rows, held) == Some(r) {
      var f := Find(db.rows, held).value;
      var i :| 0 <= i < |db.rows| && db.rows[i] == r;
      var j :| 0 <= j < |db.rows| && db.rows[j] == f;
      assert i == j;
    }
    ListedAre(db.rows, spec.name, now);
    ListedApart(db.rows, spec.name, now);
    hide Find, ListActive;
    forall r | r in ListActive(db.rows, spec.name, now)
      ensures |ListActive(db.rows, spec.name, now)| > 1 <==> exists x :: x in db.rows && x != r && Active(x, spec.name, now)
    {
      OtherListed(ListActive(db.rows, spec.name, now), r);
    }
  }

  lemma OtherListed(list: seq<Row>, r: Row)
    requires r in list && Apart(list)
    ensures |list| > 1 <==> exists x :: x in list && x != r
  {
    if |list| > 1 {
      assert list[0] in list && list[1] in list;
    }
  }

  // ---- what a replacement leaves -----------------------------------------

  ghost predicate HeldBy(r: Row, db: Db, q: Request) {
    r in db.rows && Active(r, q.spec.name, q.now) && q.held == Some(r.hash)
  }

  /** The minted row copies tenant, role and agent of the active row whose hash the file held and points back at it; without
      one it is the subject's own. The older rows keep their places, and only the active ones of the name change, to revoked. */
  lemma MintedIs(db: Db, q: Request)
    requires Table(db)
    ensures var rows, n := Replaced(db, q).rows, |db.rows|;
            && |rows| == n + 1
            && (forall i :: 0 <= i < n ==> rows[i].(revoked := db.rows[i].revoked) == db.rows[i])
            && (forall i :: 0 <= i < n ==>
                  rows[i].revoked == if Active(db.rows[i], q.spec.name, q.now) then Some(q.now) else db.rows[i].revoked)
            && rows[n].id == db.nextId && rows[n].hash == q.minted && rows[n].createdAt == q.now
            && rows[n].name == q.spec.name && rows[n].expires.None? && rows[n].revoked.None?
            && (forall r :: HeldBy(r, db, q) ==>
                  rows[n].tenant == r.tenant && rows[n].role == r.role && rows[n].agent == r.agent && rows[n].rotatedFrom == Some(r.id))
            && ((forall r :: !HeldBy(r, db, q)) ==>
                  rows[n].tenant == "default" && rows[n].role == q.spec.role && rows[n].agent == q.spec.agent && rows[n].rotatedFrom.None?)
  {
    CurrentIs(db, q);
    var c := Current(db.rows, q);
    forall r | HeldBy(r, db, q) ensures c == Some(r) {
      var i :| 0 <= i < |db.rows| && db.rows[i] == r;
      var j :| 0 <= j < |db.rows| && db.rows[j] == c.value;
      assert i == j;
    }
    if c.Some? { assert HeldBy(c.value, db, q); }
    hide Current, HeldBy;
  }
}
