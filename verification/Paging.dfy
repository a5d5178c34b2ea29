/** Keyset pages over the profile table and offset pages over a directory listing. */
module Paging {
  import opened Wrappers
  import opened Common
  import opened ProfileStore

  // ----- profile pages

  predicate Below(index: seq<nat>, i: nat, j: nat)
    requires i < |index| && j < |index|
  {
    index[i] < index[j]
  }

  /** The primary-key index: ids of the table in ascending order. */
  predicate IsIndex(index: seq<nat>, rows: Table)
  {
    && (forall i, j :: 0 <= i < j < |index| ==> Below(index, i, j))
    && (forall i :: 0 <= i < |index| ==> index[i] in rows)
  }

  /** The index misses no row. */
  predicate IndexCovers(index: seq<nat>, rows: Table)
  {
    forall k :: k in rows ==> k in index
  }

  /** How many of the first `n` ids are not above the key. */
  function UpTo(index: seq<nat>, key: nat, n: nat): (r: nat)
    requires n <= |index|
    ensures r <= n
  {
    if n == 0 then 0 else if index[n - 1] <= key then n else UpTo(index, key, n - 1)
  }

  /** Where `profile_id > after` begins in the index. */
  function Position(index: seq<nat>, after: Option<nat>): (r: nat)
    ensures r <= |index|
  {
    if after.None? then 0 else UpTo(index, after.value, |index|)
  }

  lemma {:induction false} UpToSplits(index: seq<nat>, key: nat, n: nat)
    requires n <= |index|
    ensures forall i :: UpTo(index, key, n) <= i < n ==> index[i] > key
    ensures UpTo(index, key, n) > 0 ==> index[UpTo(index, key, n) - 1] <= key
  {
    if n > 0 && index[n - 1] > key {
      UpToSplits(index, key, n - 1);
    }
  }

  function RowsOf(rows: Table, ids: seq<nat>): (r: seq<Stored>)
    requires forall i :: 0 <= i < |ids| ==> ids[i] in rows
    ensures |r| == |ids| && forall i :: 0 <= i < |ids| ==> r[i] == rows[ids[i]]
  {
    seq(|ids|, i requires 0 <= i < |ids| => rows[ids[i]])
  }

  datatype Page = Page(profiles: seq<Stored>, nextAfter: Option<nat>)

  predicate IdBelow(profiles: seq<Stored>, i: nat, j: nat)
    requires i < |profiles| && j < |profiles|
  {
    profiles[i].profile.id < profiles[j].profile.id
  }

  predicate Ascends(profiles: seq<Stored>)
  {
    forall i, j :: 0 <= i < j < |profiles| ==> IdBelow(profiles, i, j)
  }

  predicate AllRead(profiles: seq<Stored>)
  {
    forall i :: 0 <= i < |profiles| ==> Readable(profiles[i])
  }

  /** `RemoteProfilePage::validate` for the query (after, limit). */
  predicate PageValid(page: Page, after: Option<nat>, limit: nat)
  {
    && |page.profiles| <= limit
    && Ascends(page.profiles)
    && AllRead(page.profiles)
    && (after.Some? && page.profiles != [] ==> page.profiles[0].profile.id > after.value)
    && (page.nextAfter.Some? ==>
          page.profiles != [] && page.profiles[|page.profiles| - 1].profile.id == page.nextAfter.value)
  }

  /** Where a run of at most `count` ids from position `first` ends. */
  function EndOf(index: seq<nat>, first: nat, count: nat): (r: nat)
    requires first <= |index|
    ensures first <= r <= |index|
  {
    if first + count <= |index| then first + count else |index|
  }

  /** The ids the query returns: at most one more than the page shows. */
  function Selected(index: seq<nat>, after: Option<nat>, limit: nat): seq<nat>
  {
    var first := Position(index, after);
    index[first..EndOf(index, first, limit + 1)]
  }

  /** The first `limit` rows after the key; the last of them continues the walk when more follow. */
  function PageOf(rows: Table, index: seq<nat>, after: Option<nat>, limit: nat): Page
    requires IsIndex(index, rows) && limit >= 1
  {
    var first := Position(index, after);
    var end := EndOf(index, first, limit);
    Page(RowsOf(rows, index[first..end]), if end < |index| then Some(index[end - 1]) else None)
  }

  /** Every row from position `from` up to `to` of the index decodes. */
  predicate ReadableRun(rows: Table, index: seq<nat>, from: nat, to: nat)
    requires from <= to <= |index| && IsIndex(index, rows)
  {
    forall i :: from <= i < to ==> Readable(rows[index[i]])
  }

  /** What a List command returns: every selected row is decoded, the one beyond the page included. */
  function ListPage(rows: Table, index: seq<nat>, after: Option<nat>, limit: nat): Result<Page, Error>
    requires IsIndex(index, rows) && limit >= 1
  {
    var first := Position(index, after);
    if ReadableRun(rows, index, first, EndOf(index, first, limit + 1)) then Ok(PageOf(rows, index, after, limit))
    else Err(Corrupt)
  }

  lemma SliceAscends(rows: Table, index: seq<nat>, from: nat, to: nat)
    requires WellFormed(rows) && IsIndex(index, rows) && from <= to <= |index|
    ensures var part := RowsOf(rows, index[from..to]);
            Ascends(part) && forall i :: 0 <= i < |part| ==> part[i].profile.id == index[from + i]
  {
    var part := RowsOf(rows, index[from..to]);
    forall i, j | 0 <= i < j < |part| ensures IdBelow(part, i, j) {
      assert Below(index, from + i, from + j);
    }
  }

  lemma SliceReads(rows: Table, index: seq<nat>, from: nat, to: nat)
    requires IsIndex(index, rows) && from <= to <= |index| && ReadableRun(rows, index, from, to)
    ensures AllRead(RowsOf(rows, index[from..to]))
  {
    var part := RowsOf(rows, index[from..to]);
    forall i | 0 <= i < |part| ensures Readable(part[i]) {
      assert part[i] == rows[index[from + i]];
    }
  }

  lemma FirstShownIsAbove(index: seq<nat>, after: nat)
    requires Position(index, Some(after)) < |index|
    ensures index[Position(index, Some(after))] > after
  {
    UpToSplits(index, after, |index|);
  }

  /** The page a readable selection gives always passes the page check. */
  lemma PageOfIsValid(rows: Table, index: seq<nat>, after: Option<nat>, limit: nat)
    requires WellFormed(rows) && IsIndex(index, rows) && limit >= 1
    requires ListPage(rows, index, after, limit).Ok?
    ensures PageValid(PageOf(rows, index, after, limit), after, limit)
  {
    var first := Position(index, after);
    var end := EndOf(index, first, limit);
    var page := PageOf(rows, index, after, limit);
    SliceAscends(rows, index, first, end);
    SliceReads(rows, index, first, end);
    assert |page.profiles| == end - first;
    if after.Some? && first < end {
      FirstShownIsAbove(index, after.value);
      assert page.profiles[0].profile.id == index[first + 0];
    }
    if page.nextAfter.Some? {
      assert page.profiles[end - first - 1].profile.id == index[first + (end - first - 1)];
    }
  }

  /** Decoding the rows of a cursor one by one, up to the first that does not decode. */
  method DecodeRows(store: RemoteProfileStore, cursor: seq<nat>) returns (r: Result<seq<Stored>, Error>)
    requires forall i :: 0 <= i < |cursor| ==> cursor[i] in store.rows
    ensures r.Ok? <==> AllRead(RowsOf(store.rows, cursor))
    ensures r == Ok(RowsOf(store.rows, cursor)) || r == Err(Corrupt)
  {
    var profiles: seq<Stored> := [];
    for i := 0 to |cursor|
      invariant |profiles| == i && AllRead(profiles)
      invariant forall j :: 0 <= j < i ==> profiles[j] == store.rows[cursor[j]]
    {
      var row := store.rows[cursor[i]];
      if !Readable(row) {
        assert RowsOf(store.rows, cursor)[i] == row;
        return Err(Corrupt);
      }
      profiles := profiles + [row];
    }
    assert profiles == RowsOf(store.rows, cursor);
    return Ok(profiles);
  }

  lemma RunReadsExactly(rows: Table, index: seq<nat>, from: nat, to: nat)
    requires IsIndex(index, rows) && from <= to <= |index|
    ensures AllRead(RowsOf(rows, index[from..to])) <==> ReadableRun(rows, index, from, to)
  {
    var part := RowsOf(rows, index[from..to]);
    if AllRead(part) {
      forall i | from <= i < to ensures Readable(rows[index[i]]) {
        assert part[i - from] == rows[index[i]];
      }
    }
    if ReadableRun(rows, index, from, to) {
      SliceReads(rows, index, from, to);
    }
  }

  /** Cutting the fetched rows to the limit leaves the page; its last row is the continuation. */
  lemma TruncationShows(rows: Table, index: seq<nat>, after: Option<nat>, limit: nat)
    requires WellFormed(rows) && IsIndex(index, rows) && limit >= 1
    ensures var all, page := RowsOf(rows, Selected(index, after, limit)), PageOf(rows, index, after, limit);
            page == if |all| > limit then Page(all[..limit], Some(all[limit - 1].profile.id)) else Page(all, None)
  {
    var first := Position(index, after);
    var all := RowsOf(rows, Selected(index, after, limit));
    if |all| > limit {
      var shown := RowsOf(rows, index[first..first + limit]);
      forall i | 0 <= i < limit ensures all[..limit][i] == shown[i] {
        assert Selected(index, after, limit)[i] == index[first + i] == index[first..first + limit][i];
      }
      assert all[..limit] == shown;
      assert all[limit - 1].profile.id == index[first + limit - 1];
    }
  }

  /** `execute` for a List command: fetch one row too many, decode each, truncate, validate. */
  method ListProfiles(store: RemoteProfileStore, index: seq<nat>, after: Option<nat>, limit: nat)
    returns (r: Result<Page, Error>)
    requires store.Valid() && IsIndex(index, store.rows) && limit >= 1
    ensures r == ListPage(store.rows, index, after, limit)
    ensures r.Ok? ==> PageValid(r.value, after, limit)
  {
    var cursor := Selected(index, after, limit);
    RunReadsExactly(store.rows, index, Position(index, after), EndOf(index, Position(index, after), limit + 1));
    var decoded := DecodeRows(store, cursor);
    if decoded.Err? {
      return Err(Corrupt);
    }
    PageOfIsValid(store.rows, index, after, limit);
    TruncationShows(store.rows, index, after, limit);
    var profiles := decoded.value;
    var hasMore := |profiles| > limit;
    if hasMore {
      profiles := profiles[..limit];
    }
    var page := Page(profiles, if hasMore then Some(profiles[|profiles| - 1].profile.id) else None);
    return Ok(page);
  }

  /** Following `next_after` from a key until it is absent; a page that fails ends the walk. */
  function Walk(rows: Table, index: seq<nat>, after: Option<nat>, limit: nat): Result<seq<Stored>, Error>
    requires IsIndex(index, rows) && limit >= 1
    decreases |index| - Position(index, after)
  {
    match ListPage(rows, index, after, limit)
    case Err(e) => Err(e)
    case Ok(page) =>
      if page.nextAfter.None? then Ok(page.profiles)
      else
        KeyPosition(rows, index, Position(index, after) + limit);
        Joined(page.profiles, Walk(rows, index, page.nextAfter, limit))
  }

  function Joined(shown: seq<Stored>, rest: Result<seq<Stored>, Error>): Result<seq<Stored>, Error>
  {
    if rest.Ok? then Ok(shown + rest.value) else Err(rest.error)
  }

  lemma KeyPosition(rows: Table, index: seq<nat>, n: nat)
    requires IsIndex(index, rows) && 0 < n <= |index|
    ensures Position(index, Some(index[n - 1])) == n
  {
    UpToSplits(index, index[n - 1], |index|);
    var m := Position(index, Some(index[n - 1]));
    assert n - 1 < m;
    assert m > n ==> Below(index, n - 1, m - 1);
  }

  /** The rows from position `first` on, one at a time, up to the first that does not decode. */
  function RestFrom(rows: Table, index: seq<nat>, first: nat): Result<seq<Stored>, Error>
    requires IsIndex(index, rows) && first <= |index|
    decreases |index| - first
  {
    if first == |index| then Ok([])
    else if !Readable(rows[index[first]]) then Err(Corrupt)
    else Joined([rows[index[first]]], RestFrom(rows, index, first + 1))
  }

  /** That is all of them when they all decode, and the failure otherwise. */
  lemma {:induction false} RestExactly(rows: Table, index: seq<nat>, first: nat)
    requires IsIndex(index, rows) && first <= |index|
    ensures RestFrom(rows, index, first)
         == if ReadableRun(rows, index, first, |index|) then Ok(RowsOf(rows, index[first..])) else Err(Corrupt)
    decreases |index| - first
  {
    if first == |index| {
      assert RowsOf(rows, index[first..]) == [];
    } else {
      RestExactly(rows, index, first + 1);
      RowsOfCons(rows, index, first);
      assert ReadableRun(rows, index, first, |index|) <==>
        Readable(rows[index[first]]) && ReadableRun(rows, index, first + 1, |index|);
    }
  }

  lemma RowsOfCons(rows: Table, index: seq<nat>, first: nat)
    requires IsIndex(index, rows) && first < |index|
    ensures RowsOf(rows, index[first..]) == [rows[index[first]]] + RowsOf(rows, index[first + 1..])
  {
  }

  /** The rest from one position is the rows up to the next and the rest from there. */
  lemma RestSplits(rows: Table, index: seq<nat>, first: nat, next: nat)
    requires IsIndex(index, rows) && first <= next <= |index| && ReadableRun(rows, index, first, next)
    ensures RestFrom(rows, index, first) == Joined(RowsOf(rows, index[first..next]), RestFrom(rows, index, next))
  {
    RestExactly(rows, index, first);
    RestExactly(rows, index, next);
    RowsOfSplit(rows, index, first, next);
  }

  lemma RowsOfSplit(rows: Table, ids: seq<nat>, i: nat, j: nat)
    requires i <= j <= |ids| && forall k :: 0 <= k < |ids| ==> ids[k] in rows
    ensures RowsOf(rows, ids[i..]) == RowsOf(rows, ids[i..j]) + RowsOf(rows, ids[j..])
  {
  }

  /** An unreadable row among the selected ones ends the walk, and is a row of the rest. */
  lemma WalkFails(rows: Table, index: seq<nat>, after: Option<nat>, limit: nat)
    requires IsIndex(index, rows) && limit >= 1 && ListPage(rows, index, after, limit).Err?
    ensures Walk(rows, index, after, limit) == RestFrom(rows, index, Position(index, after))
  {
    var first := Position(index, after);
    var i :| first <= i < EndOf(index, first, limit + 1) && !Readable(rows[index[i]]);
    RestExactly(rows, index, first);
    assert !ReadableRun(rows, index, first, |index|);
  }

  /** The last page holds the whole rest. */
  lemma WalkEnds(rows: Table, index: seq<nat>, after: Option<nat>, limit: nat)
    requires IsIndex(index, rows) && limit >= 1 && ListPage(rows, index, after, limit).Ok?
    requires Position(index, after) + limit >= |index|
    ensures Walk(rows, index, after, limit) == RestFrom(rows, index, Position(index, after))
  {
    var first := Position(index, after);
    RestExactly(rows, index, first);
    assert index[first..EndOf(index, first, limit)] == index[first..];
  }

  /** Another page continues from the position after it. */
  lemma WalkStep(rows: Table, index: seq<nat>, after: Option<nat>, limit: nat)
    requires IsIndex(index, rows) && limit >= 1 && Position(index, after) + limit < |index|
    requires ListPage(rows, index, after, limit).Ok?
    ensures var page := PageOf(rows, index, after, limit);
            && page.nextAfter.Some? && Position(index, page.nextAfter) == Position(index, after) + limit
            && Walk(rows, index, after, limit) == Joined(page.profiles, Walk(rows, index, page.nextAfter, limit))
  {
    KeyPosition(rows, index, Position(index, after) + limit);
  }

  /** A full page shows `limit` rows, all of them readable. */
  lemma FullPage(rows: Table, index: seq<nat>, after: Option<nat>, limit: nat)
    requires IsIndex(index, rows) && limit >= 1 && Position(index, after) + limit < |index|
    requires ListPage(rows, index, after, limit).Ok?
    ensures var first := Position(index, after);
            && PageOf(rows, index, after, limit).profiles == RowsOf(rows, index[first..first + limit])
            && ReadableRun(rows, index, first, first + limit)
  {
  }

  /** So the rest from the page's start is the page and the rest after it. */
  lemma RestOfPage(rows: Table, index: seq<nat>, after: Option<nat>, limit: nat)
    requires IsIndex(index, rows) && limit >= 1 && Position(index, after) + limit < |index|
    requires ListPage(rows, index, after, limit).Ok?
    ensures RestFrom(rows, index, Position(index, after))
         == Joined(PageOf(rows, index, after, limit).profiles, RestFrom(rows, index, Position(index, after) + limit))
  {
    FullPage(rows, index, after, limit);
    RestSplits(rows, index, Position(index, after), Position(index, after) + limit);
  }

  lemma {:induction false} WalkIsRest(rows: Table, index: seq<nat>, after: Option<nat>, limit: nat)
    requires IsIndex(index, rows) && limit >= 1
    ensures Walk(rows, index, after, limit) == RestFrom(rows, index, Position(index, after))
    decreases |index| - Position(index, after)
  {
    if ListPage(rows, index, after, limit).Err? {
      WalkFails(rows, index, after, limit);
    } else if Position(index, after) + limit >= |index| {
      WalkEnds(rows, index, after, limit);
    } else {
      WalkStep(rows, index, after, limit);
      WalkIsRest(rows, index, PageOf(rows, index, after, limit).nextAfter, limit);
      RestOfPage(rows, index, after, limit);
    }
  }

  /**
   From any key the walk succeeds exactly when every row above the key is readable, and then gives
   those rows in order.
   */
  lemma WalkFromKey(rows: Table, index: seq<nat>, after: Option<nat>, limit: nat)
    requires IsIndex(index, rows) && limit >= 1
    ensures var first := Position(index, after);
            Walk(rows, index, after, limit)
            == if ReadableRun(rows, index, first, |index|) then Ok(RowsOf(rows, index[first..])) else Err(Corrupt)
  {
    WalkIsRest(rows, index, after, limit);
    RestExactly(rows, index, Position(index, after));
  }

  lemma ReadableIndex(rows: Table, index: seq<nat>)
    requires IsIndex(index, rows) && IndexCovers(index, rows)
    ensures AllReadable(rows) <==> ReadableRun(rows, index, 0, |index|)
  {
    if ReadableRun(rows, index, 0, |index|) {
      forall k | k in rows ensures Readable(rows[k]) {
        var i :| 0 <= i < |index| && index[i] == k;
      }
    }
  }

  /**
   A full walk succeeds exactly when every row of the table is readable. It then returns every profile
   exactly once, in strictly ascending id order, whatever the limit.
   */
  lemma WalkIsComplete(rows: Table, index: seq<nat>, limit: nat)
    requires WellFormed(rows) && IsIndex(index, rows) && IndexCovers(index, rows) && limit >= 1
    ensures Walk(rows, index, None, limit).Ok? <==> AllReadable(rows)
    ensures AllReadable(rows) ==>
            var all := Walk(rows, index, None, limit).value;
            && |all| == |index| && (forall i :: 0 <= i < |all| ==> all[i] == rows[index[i]])
            && Ascends(all)
            && (forall k :: k in rows ==> rows[k] in all)
  {
    WalkFromKey(rows, index, None, limit);
    ReadableIndex(rows, index);
    if AllReadable(rows) {
      var all := Walk(rows, index, None, limit).value;
      assert index[0..] == index[0..|index|] == index;
      SliceAscends(rows, index, 0, |index|);
      forall k | k in rows ensures rows[k] in all {
        var i :| 0 <= i < |index| && index[i] == k;
        assert all[i] == rows[k];
      }
    }
  }

  lemma AboveKeyIsAhead(rows: Table, index: seq<nat>, after: Option<nat>, i: nat)
    requires IsIndex(index, rows) && i < |index| && (after.Some? ==> after.value < index[i])
    ensures Position(index, after) <= i
  {
    if after.Some? {
      var m := Position(index, after);
      UpToSplits(index, after.value, |index|);
      assert m > i + 1 ==> Below(index, i, m - 1);
    }
  }

  /**
   Once a row is unreadable, no run of commands lets a walk past it again: a walk from any key below
   that profile, and every full walk, fails for good.
   */
  lemma UnreadableRowEndsWalks(rows: Table, calls: seq<Call>, bad: nat, index: seq<nat>, after: Option<nat>, limit: nat)
    requires WellFormed(rows) && bad in rows && !Readable(rows[bad])
    requires IsIndex(index, Run(rows, calls)) && IndexCovers(index, Run(rows, calls)) && limit >= 1
    requires after.Some? ==> after.value < bad
    ensures Walk(Run(rows, calls), index, after, limit) == Err(Corrupt)
  {
    var later := Run(rows, calls);
    UnreadableRowIsForever(rows, calls, bad);
    var i :| 0 <= i < |index| && index[i] == bad;
    AboveKeyIsAhead(later, index, after, i);
    WalkFromKey(later, index, after, limit);
    assert !Readable(later[index[i]]);
  }

  // ----- directory pages

  /** `expect` on the next offset panics when it does not fit 32 bits. */
  datatype DirectoryPage<T> = Listed(entries: seq<T>, nextOffset: Option<nat>) | Panics

  function ListDirectory<T>(entries: seq<T>, offset: nat, limit: nat): DirectoryPage<T>
  {
    var end := if offset + limit <= |entries| then offset + limit else |entries|;
    var shown := if offset >= |entries| then [] else entries[offset..end];
    if end >= |entries| then Listed(shown, None)
    else if end > U32_MAX then Panics
    else Listed(shown, Some(end))
  }

  /** A page is the window of at most `limit` entries at the offset, and names where the next begins if one is left. */
  lemma DirectoryPageExactly<T>(entries: seq<T>, offset: nat, limit: nat)
    ensures match ListDirectory(entries, offset, limit)
      case Panics => U32_MAX < offset + limit < |entries|
      case Listed(shown, next) =>
        && |shown| <= limit
        && (forall i :: 0 <= i < |shown| ==> offset + i < |entries| && shown[i] == entries[offset + i])
        && (if offset + limit < |entries| then |shown| == limit && next == Some(offset + limit)
            else next.None? && |shown| == if offset <= |entries| then |entries| - offset else 0)
  {
  }

  /** Following `next_offset`; nothing if a page panics. */
  function WalkDirectory<T>(entries: seq<T>, offset: nat, limit: nat): Option<seq<T>>
    requires limit >= 1
    decreases |entries| - offset
  {
    match ListDirectory(entries, offset, limit)
    case Panics => None
    case Listed(shown, None) => Some(shown)
    case Listed(shown, Some(next)) =>
      match WalkDirectory(entries, next, limit)
      case None => None
      case Some(rest) => Some(shown + rest)
  }

  /** The largest listing whose walk with this limit never needs an offset beyond 32 bits. */
  function Reach(limit: nat): nat
    requires limit >= 1
  {
    (U32_MAX / limit + 1) * limit
  }

  lemma ReachSpansU32(limit: nat)
    requires limit >= 1
    ensures Reach(limit) - limit <= U32_MAX < Reach(limit)
  {
    var q := U32_MAX / limit;
    assert Reach(limit) == q * limit + limit;
  }

  lemma OnePageLess(pages: nat, limit: nat)
    requires pages >= 1
    ensures pages * limit == (pages - 1) * limit + limit
    ensures pages >= 2 ==> (pages - 1) * limit >= limit
  {
  }

  /** From an offset that is a whole number of pages below `reach`, the end of the first page beyond 32 bits. */
  lemma {:induction false} WalkFromOffset<T>(entries: seq<T>, offset: nat, pages: nat, limit: nat, reach: nat)
    requires limit >= 1 && pages >= 1 && offset + pages * limit == reach && offset <= |entries|
    requires reach - limit <= U32_MAX < reach
    ensures WalkDirectory(entries, offset, limit) == if |entries| <= reach then Some(entries[offset..]) else None
    decreases |entries| - offset
  {
    var next := offset + limit;
    OnePageLess(pages, limit);
    if next < |entries| {
      if pages > 1 {
        WalkFromOffset(entries, next, pages - 1, limit, reach);
        assert entries[offset..] == entries[offset..next] + entries[next..];
      }
    } else {
      assert entries[offset..|entries|] == entries[offset..];
    }
  }

  /** Following `next_offset` reproduces the listing exactly up to the 32-bit reach; beyond it a page panics. */
  lemma DirectoryWalkIsExact<T>(entries: seq<T>, limit: nat)
    requires limit >= 1
    ensures WalkDirectory(entries, 0, limit) == if |entries| <= Reach(limit) then Some(entries) else None
  {
    ReachSpansU32(limit);
    WalkFromOffset(entries, 0, U32_MAX / limit + 1, limit, Reach(limit));
    assert entries[0..] == entries;
  }
}
