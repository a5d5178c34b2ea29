/**
 The remote profile table: compare-and-swap revisions and jump references.

 Profile ids are UUIDs kept as text of one width, so their text order is the order of the 128-bit
 numbers; the model uses the numbers. A profile's own `validate` and the size of its JSON document
 are given as fields. Times are the wall-clock milliseconds `unix_time_ms` returned.
 */
module ProfileStore {
  import opened Wrappers
  import opened Common

  const MAX_REMOTE_PROFILE_DOCUMENT_BYTES: nat := 64 * 1024
  const I64_MAX: int := 0x7fff_ffff_ffff_ffff

  datatype Protocol = Ssh | Sftp | Ftp | FtpsExplicit | Smb

  datatype Profile = Profile(id: nat, protocol: Protocol, jumpProfiles: seq<nat>, valid: bool, documentBytes: nat)
  {
    /** Only the SSH and SFTP options carry jump profiles. */
    function Jumps(): seq<nat> { if protocol.Ssh? || protocol.Sftp? then jumpProfiles else [] }
  }

  datatype Stored = Stored(profile: Profile, revision: nat, createdAt: int, updatedAt: int)

  type Table = map<nat, Stored>

  datatype Error = Invalid | TooLarge | Conflict | NotFound | InUse | Corrupt

  datatype Command =
    | Upsert(profile: Profile, expected: Option<nat>, now: int)
    | Delete(id: nat, revision: nat)
  {
    function Target(): nat { match this case Upsert(p, _, _) => p.id case Delete(id, _) => id }
  }

  /** A row that `decode_profile_row` accepts. */
  predicate Readable(row: Stored)
  {
    && row.profile.valid && row.profile.documentBytes <= MAX_REMOTE_PROFILE_DOCUMENT_BYTES
    && 0 <= row.createdAt <= row.updatedAt
  }

  predicate AllReadable(rows: Table)
  {
    forall k :: k in rows ==> Readable(rows[k])
  }

  /** Another profile lists `id` as a jump. */
  predicate JumpedTo(rows: Table, id: nat)
  {
    exists k :: k in rows && k != id && id in rows[k].profile.Jumps()
  }

  /** When an upsert is accepted. */
  predicate CanUpsert(rows: Table, p: Profile, expected: Option<nat>, inTransfer: bool)
  {
    && p.valid && p.documentBytes <= MAX_REMOTE_PROFILE_DOCUMENT_BYTES
    && match expected
       case None => p.id !in rows
       case Some(r) =>
         && p.id in rows && Readable(rows[p.id]) && rows[p.id].revision == r && r < I64_MAX
         && (rows[p.id].profile.protocol == p.protocol
             || (AllReadable(rows) && !JumpedTo(rows, p.id) && !inTransfer))
  }

  /** When a delete is accepted. */
  predicate CanDelete(rows: Table, id: nat, revision: nat, inTransfer: bool)
  {
    && AllReadable(rows) && !JumpedTo(rows, id) && !inTransfer
    && id in rows && rows[id].revision == revision
  }

  predicate Succeeds(rows: Table, c: Command, inTransfer: bool)
  {
    match c
    case Upsert(p, expected, _) => CanUpsert(rows, p, expected, inTransfer)
    case Delete(id, revision) => CanDelete(rows, id, revision, inTransfer)
  }

  /** The row an accepted upsert leaves. */
  function Written(rows: Table, p: Profile, expected: Option<nat>, now: int): Stored
  {
    Stored(p, if expected.Some? then expected.value + 1 else 0, if p.id in rows then rows[p.id].createdAt else now, now)
  }

  function Apply(rows: Table, c: Command, inTransfer: bool): Table
  {
    if !Succeeds(rows, c, inTransfer) then rows else
      match c
      case Upsert(p, expected, now) => rows[p.id := Written(rows, p, expected, now)]
      case Delete(id, _) => rows - {id}
  }

  /** What SQLite keeps true of the table: rows under their own ids, revisions in a signed 64-bit column. */
  predicate WellFormed(rows: Table)
  {
    forall k :: k in rows ==> rows[k].profile.id == k && rows[k].revision <= I64_MAX
  }

  /** The order in which a full table scan returns rows; SQLite promises none. */
  predicate IsScan(order: seq<nat>, rows: Table)
  {
    && (forall i :: 0 <= i < |order| ==> order[i] in rows)
    && (forall k :: k in rows ==> k in order)
  }

  class RemoteProfileStore {
    var rows: Table

    ghost predicate Valid() reads this { WellFormed(rows) }

    constructor ()
      ensures Valid() && rows == map[]
    {
      rows := map[];
    }

    /** `load_profile_by_id` */
    method Load(id: nat) returns (r: Result<Option<Stored>, Error>)
      ensures r == if id !in rows then Ok(None) else if Readable(rows[id]) then Ok(Some(rows[id])) else Err(Corrupt)
    {
      if id !in rows {
        return Ok(None);
      }
      if !Readable(rows[id]) {
        return Err(Corrupt);
      }
      return Ok(Some(rows[id]));
    }

    /** `profile_is_referenced`: the scan stops at the first reference or the first unreadable row. */
    method IsReferenced(id: nat, inTransfer: bool, order: seq<nat>) returns (r: Result<bool, Error>)
      requires IsScan(order, rows)
      ensures r.Ok? && !r.value <==> AllReadable(rows) && !JumpedTo(rows, id) && !inTransfer
      ensures r.Ok? && r.value ==> JumpedTo(rows, id) || inTransfer
      ensures r.Err? ==> r.error == Corrupt && !AllReadable(rows)
    {
      var i := 0;
      while i < |order|
        invariant 0 <= i <= |order|
        invariant forall j :: 0 <= j < i ==>
                    Readable(rows[order[j]]) && (order[j] == id || id !in rows[order[j]].profile.Jumps())
      {
        var row := rows[order[i]];
        if !Readable(row) {
          return Err(Corrupt);
        }
        if order[i] != id && id in row.profile.Jumps() {
          return Ok(true);
        }
        i := i + 1;
      }
      forall k | k in rows ensures Readable(rows[k]) && (k == id || id !in rows[k].profile.Jumps()) {
        var j :| 0 <= j < |order| && order[j] == k;
      }
      return Ok(inTransfer);
    }

    method Upsert(p: Profile, expected: Option<nat>, inTransfer: bool, now: int, order: seq<nat>)
      returns (r: Result<Stored, Error>)
      requires Valid() && IsScan(order, rows)
      modifies this
      ensures Valid()
      ensures rows == Apply(old(rows), Command.Upsert(p, expected, now), inTransfer)
      ensures r.Ok? <==> CanUpsert(old(rows), p, expected, inTransfer)
      ensures r.Ok? ==> p.id in rows && r.value == rows[p.id]
      ensures r.Err? ==> UpsertErrorFits(r.error, old(rows), p, expected, inTransfer)
    {
      if !p.valid {
        return Err(Invalid);
      }
      if p.documentBytes > MAX_REMOTE_PROFILE_DOCUMENT_BYTES {
        return Err(TooLarge);
      }
      var loaded := Load(p.id);
      if loaded.Err? {
        return Err(loaded.error);
      }
      var existing := loaded.value;
      if existing.Some? {
        if expected != Some(existing.value.revision) {
          return Err(Conflict);
        }
        if existing.value.profile.protocol != p.protocol {
          var referenced := IsReferenced(p.id, inTransfer, order);
          if referenced.Err? {
            return Err(referenced.error);
          }
          if referenced.value {
            return Err(InUse);
          }
        }
      } else if expected.Some? {
        return Err(NotFound);
      }
      // The increment fits u64: a stored revision came out of a signed column.
      assert expected.Some? ==> expected.value + 1 <= U64_MAX;
      var revision := if expected.Some? then expected.value + 1 else 0;
      var createdAt := if existing.Some? then existing.value.createdAt else now;
      if revision > I64_MAX {
        return Err(Invalid);
      }
      // UPDATE ... WHERE profile_id AND revision, or INSERT OR IGNORE: exactly one row changes.
      rows := rows[p.id := Stored(p, revision, createdAt, now)];
      return Ok(rows[p.id]);
    }

    method Delete(id: nat, revision: nat, inTransfer: bool, order: seq<nat>) returns (r: Result<nat, Error>)
      requires Valid() && IsScan(order, rows)
      modifies this
      ensures Valid()
      ensures rows == Apply(old(rows), Command.Delete(id, revision), inTransfer)
      ensures r.Ok? <==> CanDelete(old(rows), id, revision, inTransfer)
      ensures r.Ok? ==> r.value == id
      ensures r.Err? ==> DeleteErrorFits(r.error, old(rows), id, revision, inTransfer)
    {
      var referenced := IsReferenced(id, inTransfer, order);
      if referenced.Err? {
        return Err(referenced.error);
      }
      if referenced.value {
        return Err(InUse);
      }
      if revision > I64_MAX {
        return Err(Invalid);
      }
      if id !in rows {
        return Err(NotFound);
      }
      if rows[id].revision != revision {
        return Err(Conflict);
      }
      rows := rows - {id};
      return Ok(id);
    }
  }

  predicate UpsertErrorFits(e: Error, rows: Table, p: Profile, expected: Option<nat>, inTransfer: bool)
  {
    match e
    case Invalid => !p.valid || expected == Some(I64_MAX)
    case TooLarge => p.documentBytes > MAX_REMOTE_PROFILE_DOCUMENT_BYTES
    case Conflict => p.id in rows && expected != Some(rows[p.id].revision)
    case NotFound => p.id !in rows && expected.Some?
    case InUse =>
      && p.id in rows && rows[p.id].profile.protocol != p.protocol && (JumpedTo(rows, p.id) || inTransfer)
    case Corrupt => !AllReadable(rows)
  }

  predicate DeleteErrorFits(e: Error, rows: Table, id: nat, revision: nat, inTransfer: bool)
  {
    match e
    case Invalid => revision > I64_MAX
    case TooLarge => false
    case Conflict => id in rows && rows[id].revision != revision
    case NotFound => id !in rows
    case InUse => JumpedTo(rows, id) || inTransfer
    case Corrupt => !AllReadable(rows)
  }

  // ----- what an accepted command stores

  /**
   An accepted creation stores the profile at revision 0, created and updated now; an accepted update one
   revision on, with the creation time it had. No other row changes.
   */
  lemma AcceptedUpsertStores(rows: Table, p: Profile, expected: Option<nat>, now: int, inTransfer: bool)
    requires CanUpsert(rows, p, expected, inTransfer)
    ensures var after := Apply(rows, Upsert(p, expected, now), inTransfer);
      && after.Keys == rows.Keys + {p.id}
      && after[p.id].profile == p && after[p.id].updatedAt == now
      && (expected.None? ==> p.id !in rows && after[p.id].revision == 0 && after[p.id].createdAt == now)
      && (expected.Some? ==>
            && p.id in rows && rows[p.id].revision == expected.value
            && after[p.id].revision == expected.value + 1 && after[p.id].createdAt == rows[p.id].createdAt)
      && (forall k :: k in rows && k != p.id ==> after[k] == rows[k])
  {
  }

  /** An accepted delete removes exactly its row, and a refused command changes nothing. */
  lemma OtherCommandsStore(rows: Table, c: Command, inTransfer: bool)
    ensures var after := Apply(rows, c, inTransfer);
      && (!Succeeds(rows, c, inTransfer) ==> after == rows)
      && (c.Delete? && Succeeds(rows, c, inTransfer) ==>
            after.Keys == rows.Keys - {c.id} && c.id in rows && forall k :: k in after ==> after[k] == rows[k])
  {
  }

  /** A profile that others jump through, or that a transfer uses, keeps its protocol through every command. */
  lemma ReferencedKeepsProtocol(rows: Table, id: nat, c: Command, inTransfer: bool)
    requires WellFormed(rows) && id in rows && (JumpedTo(rows, id) || (inTransfer && c.Target() == id))
    ensures var after := Apply(rows, c, inTransfer);
            id in after && after[id].profile.protocol == rows[id].profile.protocol
  {
  }

  // ----- revisions over any run of commands

  /** A command with the reference answer it was executed with. */
  datatype Call = Call(command: Command, inTransfer: bool)

  function Run(rows: Table, calls: seq<Call>): Table
  {
    if calls == [] then rows
    else
      var last := calls[|calls| - 1];
      Apply(Run(rows, calls[..|calls| - 1]), last.command, last.inTransfer)
  }

  /** Call `i` of the run succeeds on `id`. */
  predicate Wins(rows: Table, calls: seq<Call>, i: nat, id: nat)
    requires i < |calls|
  {
    calls[i].command.Target() == id && Succeeds(Run(rows, calls[..i]), calls[i].command, calls[i].inTransfer)
  }

  predicate Creates(rows: Table, calls: seq<Call>, i: nat, id: nat)
    requires i < |calls|
  {
    Wins(rows, calls, i, id) && calls[i].command.Upsert? && calls[i].command.expected.None?
  }

  predicate Removes(rows: Table, calls: seq<Call>, i: nat, id: nat)
    requires i < |calls|
  {
    Wins(rows, calls, i, id) && calls[i].command.Delete?
  }

  function Updates(rows: Table, calls: seq<Call>, id: nat): nat
  {
    if calls == [] then 0
    else
      var n := |calls| - 1;
      Updates(rows, calls[..n], id) + (if Wins(rows, calls, n, id) then 1 else 0)
  }

  lemma PrefixOfPrefix(calls: seq<Call>, i: nat, j: nat)
    requires i <= j <= |calls|
    ensures calls[..j][..i] == calls[..i]
  {
  }

  /** While a profile is not deleted, its revision counts its successful upserts and its creation time stays. */
  lemma {:induction false} RevisionCountsUpserts(rows: Table, calls: seq<Call>, id: nat)
    requires id in rows
    requires forall i: nat :: i < |calls| ==> !Removes(rows, calls, i, id)
    ensures id in Run(rows, calls)
    ensures Run(rows, calls)[id].revision == rows[id].revision + Updates(rows, calls, id)
    ensures Run(rows, calls)[id].createdAt == rows[id].createdAt
  {
    if calls == [] {
    } else {
      var n := |calls| - 1;
      var front := calls[..n];
      forall i: nat | i < n ensures !Removes(rows, front, i, id) {
        PrefixOfPrefix(calls, i, n);
        assert !Removes(rows, calls, i, id);
      }
      RevisionCountsUpserts(rows, front, id);
      assert !Removes(rows, calls, n, id);
    }
  }

  /** Successful upserts of `id` after call `i`. */
  function UpdatesSince(rows: Table, calls: seq<Call>, i: nat, id: nat): nat
    requires i < |calls|
  {
    if |calls| == i + 1 then 0
    else
      var n := |calls| - 1;
      UpdatesSince(rows, calls[..n], i, id) + (if Wins(rows, calls, n, id) then 1 else 0)
  }

  /**
   From the call that creates a profile until one deletes it, over any run: its revision is the number of
   successful upserts since that call, 0, 1, 2, ..., and its creation time is that call's clock reading.
   */
  lemma {:induction false} LifeOfProfile(rows: Table, calls: seq<Call>, i: nat, id: nat)
    requires i < |calls| && Creates(rows, calls, i, id)
    requires forall k: nat :: i < k < |calls| ==> !Removes(rows, calls, k, id)
    ensures id in Run(rows, calls)
    ensures Run(rows, calls)[id].revision == UpdatesSince(rows, calls, i, id)
    ensures Run(rows, calls)[id].createdAt == calls[i].command.now
    decreases |calls|
  {
    var n := |calls| - 1;
    var front := calls[..n];
    if n == i {
      var c := calls[i];
      AcceptedUpsertStores(Run(rows, front), c.command.profile, None, c.command.now, c.inTransfer);
    } else {
      forall k: nat | i < k < n ensures !Removes(rows, front, k, id) {
        PrefixOfPrefix(calls, k, n);
        assert !Removes(rows, calls, k, id);
      }
      PrefixOfPrefix(calls, i, n);
      LifeOfProfile(rows, front, i, id);
      assert !Removes(rows, calls, n, id);
    }
  }

  /** Without a new creation, a profile that is present was present before, at no higher a revision. */
  lemma {:induction false} RevisionOnlyGrows(rows: Table, calls: seq<Call>, i: nat, j: nat, id: nat)
    requires i <= j <= |calls|
    requires forall k: nat :: i <= k < j ==> !Creates(rows, calls, k, id)
    requires id in Run(rows, calls[..j])
    ensures id in Run(rows, calls[..i])
    ensures Run(rows, calls[..i])[id].revision <= Run(rows, calls[..j])[id].revision
    decreases j
  {
    if i < j {
      PrefixOfPrefix(calls, j - 1, j);
      assert !Creates(rows, calls, j - 1, id);
      RevisionOnlyGrows(rows, calls, i, j - 1, id);
    }
  }

  predicate Expects(c: Command, revision: nat)
  {
    match c
    case Upsert(_, expected, _) => expected == Some(revision)
    case Delete(_, r) => r == revision
  }

  /** Of the upserts and deletes of one profile that expect the same revision, at most one succeeds. */
  lemma AtMostOneWinner(rows: Table, calls: seq<Call>, i: nat, j: nat, id: nat, revision: nat)
    requires i < j < |calls|
    requires Expects(calls[i].command, revision) && Expects(calls[j].command, revision)
    requires forall k: nat :: i < k < j ==> !Creates(rows, calls, k, id)
    ensures !(Wins(rows, calls, i, id) && Wins(rows, calls, j, id))
  {
    if Wins(rows, calls, i, id) && Wins(rows, calls, j, id) {
      PrefixOfPrefix(calls, i, i + 1);
      assert calls[..i + 1][i] == calls[i];
      RevisionOnlyGrows(rows, calls, i + 1, j, id);
    }
  }

  /** No stored revision reaches the point where `+ 1` would overflow. */
  lemma {:induction false} RunKeepsWellFormed(rows: Table, calls: seq<Call>)
    requires WellFormed(rows)
    ensures WellFormed(Run(rows, calls))
    ensures forall k :: k in Run(rows, calls) ==> Run(rows, calls)[k].revision + 1 <= U64_MAX
  {
    if calls == [] {
    } else {
      RunKeepsWellFormed(rows, calls[..|calls| - 1]);
    }
  }

  // ----- jump references

  /** After a successful delete no remaining profile lists the deleted id. */
  lemma DeleteLeavesNoJump(rows: Table, id: nat, revision: nat, inTransfer: bool, k: nat)
    requires WellFormed(rows) && CanDelete(rows, id, revision, inTransfer)
    requires k in Apply(rows, Delete(id, revision), inTransfer)
    ensures id !in Apply(rows, Delete(id, revision), inTransfer)[k].profile.Jumps()
  {
  }

  predicate JumpsResolve(rows: Table)
  {
    forall k, j :: k in rows && j in rows[k].profile.Jumps() ==> j in rows
  }

  /** Jump integrity: a delete never breaks it, and an upsert keeps it exactly when its own jumps exist. */
  lemma JumpIntegrity(rows: Table, c: Command, inTransfer: bool)
    requires JumpsResolve(rows) && Succeeds(rows, c, inTransfer)
    ensures c.Delete? ==> JumpsResolve(Apply(rows, c, inTransfer))
    ensures c.Upsert? ==> (JumpsResolve(Apply(rows, c, inTransfer))
                           <==> forall j :: j in c.profile.Jumps() ==> j in rows || j == c.profile.id)
  {
    if c.Upsert? {
      var after := Apply(rows, c, inTransfer);
      assert after[c.profile.id].profile == c.profile;
      if forall j :: j in c.profile.Jumps() ==> j in rows || j == c.profile.id {
        forall k, j | k in after && j in after[k].profile.Jumps() ensures j in after {
          if k != c.profile.id {
            assert after[k] == rows[k];
          }
        }
      } else {
        var j :| j in c.profile.Jumps() && j !in rows && j != c.profile.id;
        assert j in after[c.profile.id].profile.Jumps() && j !in after;
      }
    }
  }

  // ----- the wall clock

  /**
   An accepted upsert leaves a readable row exactly when its clock reading is not negative and not
   before the profile's creation. Nothing checks this before the commit.
   */
  lemma UpsertReadableExactly(rows: Table, p: Profile, expected: Option<nat>, now: int, inTransfer: bool)
    requires CanUpsert(rows, p, expected, inTransfer)
    ensures Readable(Apply(rows, Upsert(p, expected, now), inTransfer)[p.id])
            <==> now >= (if p.id in rows then rows[p.id].createdAt else 0)
  {
  }

  /** For example: created at 10, updated at a clock reading of 5. Both calls succeed and the row is lost. */
  lemma ClockStepBackStrandsProfile() returns (calls: seq<Call>)
    ensures |calls| == 2 && Wins(map[], calls, 0, 1) && Wins(map[], calls, 1, 1)
    ensures 1 in Run(map[], calls) && !Readable(Run(map[], calls)[1])
  {
    var p := Profile(1, Sftp, [], true, 100);
    var create, update := Call(Upsert(p, None, 10), false), Call(Upsert(p, Some(0), 5), false);
    calls := [create, update];
    assert calls[..0] == [] && calls[..1] == [create] && [create][..0] == [];
    assert Run(map[], calls[..0]) == map[];
    assert Run(map[], calls[..1]) == map[1 := Stored(p, 0, 10, 10)];
    assert Run(map[], calls) == map[1 := Stored(p, 1, 10, 5)];
  }

  /** One unreadable row blocks every delete, every protocol change and every further update of itself. */
  lemma UnreadableRowStays(rows: Table, bad: nat, c: Command, inTransfer: bool)
    requires WellFormed(rows) && bad in rows && !Readable(rows[bad])
    ensures var after := Apply(rows, c, inTransfer);
            && bad in after && after[bad] == rows[bad]
            && (c.Delete? ==> !Succeeds(rows, c, inTransfer))
            && (Succeeds(rows, c, inTransfer) && c.profile.id in rows ==>
                  rows[c.profile.id].profile.protocol == c.profile.protocol)
  {
  }

  /** And no run of commands ever clears it: every delete in the run fails. */
  lemma {:induction false} UnreadableRowIsForever(rows: Table, calls: seq<Call>, bad: nat)
    requires WellFormed(rows) && bad in rows && !Readable(rows[bad])
    ensures bad in Run(rows, calls) && Run(rows, calls)[bad] == rows[bad]
    ensures forall i: nat, id :: i < |calls| ==> !Removes(rows, calls, i, id)
  {
    if calls == [] {
    } else {
      var n := |calls| - 1;
      var front := calls[..n];
      UnreadableRowIsForever(rows, front, bad);
      RunKeepsWellFormed(rows, front);
      UnreadableRowStays(Run(rows, front), bad, calls[n].command, calls[n].inTransfer);
      forall i: nat, id | i < |calls| ensures !Removes(rows, calls, i, id) {
        if i < n {
          PrefixOfPrefix(calls, i, n);
          assert !Removes(rows, front, i, id);
        }
      }
    }
  }
}
