/** Migration 004: PATs get an explicit owner instead of the one implied by
    users.provider_id, and orphans are removed. */
module Migration004 {
  import opened Wrappers
  import opened Accounts

  /** A row before the migration. */
  datatype OldPat = OldPat(keyHash: string, salt: string, expiresAt: Option<int>)

  /** A row while the new column is still nullable. */
  datatype OpenPat = OpenPat(content: OldPat, user: Option<Uid>)

  /** The old link: the pat-only account whose provider_id is the PAT's id. */
  ghost function OldOwner(users: Users, id: PatId): Option<Uid> {
    KeyOwner(users, PatOnly, id)
  }

  lemma OldOwnerExact(users: Users, id: PatId, u: Uid)
    requires Unique(users)
    ensures OldOwner(users, id) == Some(u) <==> u in users && users[u].provider == PatOnly && users[u].providerId == id
  {
    if u in users && users[u].provider == PatOnly && users[u].providerId == id {
      assert HasKey(users[u], PatOnly, id);
    }
  }

  class PatTable {
    var rows: map<PatId, OpenPat>

    /** ALTER TABLE ... ADD COLUMN user_id. */
    constructor (before: map<PatId, OldPat>)
      ensures rows.Keys == before.Keys
      ensures forall id <- rows :: rows[id] == OpenPat(before[id], None)
    {
      rows := map id | id in before :: OpenPat(before[id], None);
    }

    /** UPDATE ... SET user_id = u.id FROM users u WHERE provider = 'pat' AND
        u.provider_id = p.id::text. */
    method Backfill(users: Users)
      requires Unique(users)
      modifies this
      ensures rows.Keys == old(rows).Keys
      ensures forall id <- rows ::
                rows[id] == (if OldOwner(users, id).Some? then old(rows)[id].(user := OldOwner(users, id))
                             else old(rows)[id])
    {
      var ids := rows.Keys;
      while ids != {}
        invariant rows.Keys == old(rows).Keys && ids <= rows.Keys
        invariant forall id <- ids :: rows[id] == old(rows)[id]
        invariant forall id <- rows.Keys - ids ::
                    rows[id] == (if OldOwner(users, id).Some? then old(rows)[id].(user := OldOwner(users, id))
                                 else old(rows)[id])
        decreases |ids|
      {
        var id :| id in ids;
        if u: Uid :| u in users && HasKey(users[u], PatOnly, id) {
          rows := rows[id := rows[id].(user := Some(u))];
          assert OldOwner(users, id) == Some(u);
        }
        ids := ids - {id};
      }
    }

    /** DELETE ... WHERE user_id IS NULL. */
    method DeleteOrphans()
      modifies this
      ensures rows == map id | id in old(rows) && old(rows)[id].user.Some? :: old(rows)[id]
    {
      rows := map id | id in rows && rows[id].user.Some? :: rows[id];
    }

    /** ALTER COLUMN user_id SET NOT NULL: fails if some row has no owner. */
    method SetNotNull() returns (r: Option<map<PatId, Pat>>)
      ensures r.Some? <==> forall id <- rows :: rows[id].user.Some?
      ensures r.Some? ==>
                r.value.Keys == rows.Keys &&
                forall id <- rows ::
                  r.value[id] == Pat(rows[id].user.value, rows[id].content.keyHash, rows[id].content.salt, rows[id].content.expiresAt)
    {
      if id: PatId :| id in rows && rows[id].user.None? {
        return None;
      }
      return Some(map id | id in rows ::
        Pat(rows[id].user.value, rows[id].content.keyHash, rows[id].content.salt, rows[id].content.expiresAt));
    }
  }

  /** after holds exactly the PATs of before that had an owner, owned by that owner and
      otherwise unchanged. */
  ghost predicate Migrated(users: Users, before: map<PatId, OldPat>, after: map<PatId, Pat>) {
    && (forall id :: id in after <==> id in before && OldOwner(users, id).Some?)
    && (forall id <- after ::
          after[id] == Pat(OldOwner(users, id).value, before[id].keyHash, before[id].salt, before[id].expiresAt))
  }

  /** The whole migration; it never fails. */
  method Up(users: Users, before: map<PatId, OldPat>) returns (r: Option<map<PatId, Pat>>)
    requires Unique(users)
    ensures r.Some? && Migrated(users, before, r.value)
  {
    var table := new PatTable(before);
    table.Backfill(users);
    table.DeleteOrphans();
    r := table.SetNotNull();
  }

  // ---- The meaning is preserved ----

  predicate Matches(hash: string -> string, raw: string, keyHash: string, salt: string) {
    hash(raw + salt) == keyHash
  }

  /** Old rows come back with their id, which the old lookup needs. */
  function OldFirstMatch(hash: string -> string, rows: seq<(PatId, OldPat)>, raw: string): Option<(PatId, OldPat)> {
    if rows == [] then None
    else if Matches(hash, raw, rows[0].1.keyHash, rows[0].1.salt) then Some(rows[0])
    else OldFirstMatch(hash, rows[1..], raw)
  }

  /** Authentication before the migration: match, expiry, then the account whose
      provider_id is the PAT's id. */
  ghost function OldResolve(hash: string -> string, users: Users, rows: seq<(PatId, OldPat)>, raw: string, now: int)
    : Result<Uid, PatError>
  {
    var m := OldFirstMatch(hash, rows, raw);
    if m.None? then Err(InvalidPat)
    else if m.value.1.expiresAt.Some? && now > m.value.1.expiresAt.value then Err(PatExpired)
    else
      match OldOwner(users, m.value.0)
      case Some(u) => Ok(u)
      case None => Err(OwnerMissing)
  }

  ghost predicate ListsOld(before: map<PatId, OldPat>, rows: seq<(PatId, OldPat)>) {
    && (forall r <- rows :: r.0 in before && before[r.0] == r.1)
    && (forall id <- before :: (id, before[id]) in rows)
  }

  /** No two stored PATs answer to the raw key. */
  ghost predicate OneMatch(hash: string -> string, before: map<PatId, OldPat>, raw: string) {
    forall a, b | a in before && b in before
                  && Matches(hash, raw, before[a].keyHash, before[a].salt)
                  && Matches(hash, raw, before[b].keyHash, before[b].salt) :: a == b
  }

  lemma {:induction false} OldFirstMatchExact(hash: string -> string, rows: seq<(PatId, OldPat)>, raw: string)
    ensures var m := OldFirstMatch(hash, rows, raw);
            if m.Some? then m.value in rows && Matches(hash, raw, m.value.1.keyHash, m.value.1.salt)
            else forall r <- rows :: !Matches(hash, raw, r.1.keyHash, r.1.salt)
  {
    if rows != [] {
      OldFirstMatchExact(hash, rows[1..], raw);
    }
  }

  /** Main result: after the migration a raw key authenticates exactly the user it
      authenticated before, in whatever order either table is read; a key whose PAT
      had no owner, and so authenticated nobody, is now simply unknown. */
  lemma ResolutionPreserved(hash: string -> string, users: Users, before: map<PatId, OldPat>, after: map<PatId, Pat>,
                            oldRows: seq<(PatId, OldPat)>, newRows: seq<Pat>, raw: string, now: int)
    requires Unique(users) && Migrated(users, before, after) && OneMatch(hash, before, raw)
    requires ListsOld(before, oldRows) && Lists(after, newRows)
    ensures var was := OldResolve(hash, users, oldRows, raw, now);
            var afterwards := ResolveIn(hash, users, newRows, raw, now);
            var m := OldFirstMatch(hash, oldRows, raw);
            if m.Some? && OldOwner(users, m.value.0).None? then afterwards == Err(InvalidPat) && was.Err? else afterwards == was
  {
    OldFirstMatchExact(hash, oldRows, raw);
    FirstMatchExact(hash, newRows, raw);
    var m := OldFirstMatch(hash, oldRows, raw);
    var n := FirstMatch(hash, newRows, raw);
    if n.Some? {
      var k :| k in after && after[k] == n.value;
      assert Matches(hash, raw, before[k].keyHash, before[k].salt);
      assert (k, before[k]) in oldRows;
    }
  }
}
