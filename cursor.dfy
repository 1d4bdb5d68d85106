/** The directory cursor behind both the object list and the constellation
    list: a directory that can only be listed forwards (openNextFile) or
    rewound (rewindDirectory), the entry last taken from it, and a 1-based
    position that counts the entries taken since the list was opened. */
module Cursor {
  import opened Common
  import opened Storage

  /** An open directory: the files openNextFile hands out, in order, and how
      many it has handed out since the last rewind. */
  datatype Listing = Listing(entries: seq<Handle>, pos: nat)

  /** The state of one cursor: _current*Dir, _current*File and _file*Index. */
  datatype CursorState = CursorState(dir: Option<Listing>, current: Option<Handle>, index: nat)

  const Closed := CursorState(None, None, 0)

  /** What every operation keeps: a closed cursor sits at 0, an open one at
      the number of entries taken from its directory, or at 0 once a failed
      previous has read the directory through. */
  predicate Consistent(st: CursorState)
  {
    match st.dir
    case None => st.index == 0
    case Some(l) => l.pos <= |l.entries| && (st.index == l.pos || (st.index == 0 && l.pos == |l.entries|))
  }

  /** The entry at 1-based position k, or an invalid file past the end. */
  function EntryAt(entries: seq<Handle>, k: nat): Option<Handle>
  {
    if 1 <= k <= |entries| then Some(entries[k - 1]) else None
  }

  /** open*List once the path is built: the position is reset and the
      directory replaced; the current file is left as it was. */
  function OpenState(st: CursorState, listing: Option<seq<Handle>>): (r: CursorState)
    ensures Consistent(r) && r.index == 0 && r.current == st.current
    ensures r.dir.Some? <==> listing.Some?
    ensures listing.Some? ==> r.dir.value.entries == listing.value && r.dir.value.pos == 0
  {
    CursorState(if listing.Some? then Some(Listing(listing.value, 0)) else None, st.current, 0)
  }

  /** gotoNext*InList: with an open directory, the current file is closed and
      the next raw entry, whatever its name, becomes current; at the end of
      the listing nothing replaces it. */
  function NextState(st: CursorState): (r: (CursorState, bool))
    ensures Consistent(st) ==> Consistent(r.0)
    ensures r.1 <==> st.dir.Some? && st.dir.value.pos < |st.dir.value.entries|
    ensures r.0.dir.Some? <==> st.dir.Some?
    ensures r.1 ==> r.0.index == st.index + 1 && r.0.current.Some?
    ensures r.1 ==> r.0.dir.value.entries == st.dir.value.entries && r.0.dir.value.pos == st.dir.value.pos + 1
    ensures !r.1 ==> r.0.index == st.index && r.0.dir == st.dir
    ensures !r.1 && st.dir.Some? ==> r.0.current.None?
    ensures st.dir.None? ==> r == (st, false)
  {
    match st.dir
    case None => (st, false)
    case Some(l) =>
      if l.pos < |l.entries| then
        (CursorState(Some(l.(pos := l.pos + 1)), Some(l.entries[l.pos]), st.index + 1), true)
      else
        (st.(current := None), false)
  }

  /** The largest value of the unsigned position counter; at position 0
      `index - 1` wraps round to it. */
  const IndexMax: nat := 0xFFFF_FFFF

  /** The position previous replays to: one less, wrapping at 0. */
  function Target(k: nat): (t: nat)
    ensures t >= 1 <==> k != 1
    ensures k >= 1 ==> t + 1 == k
    ensures k == 0 ==> t == IndexMax
  {
    if k == 0 then IndexMax else k - 1
  }

  /** gotoPrevious*InList, stated in closed form: from position k other
      than 1 the directory is rewound and Target(k) entries are taken again;
      the last one becomes current. At position 1, or with no directory,
      nothing happens. */
  function PreviousState(st: CursorState): (r: (CursorState, bool))
    ensures Consistent(st) ==> Consistent(r.0)
    ensures r.0.dir.Some? <==> st.dir.Some?
    ensures r.0.dir.Some? ==> r.0.dir.value.entries == st.dir.value.entries
    ensures r.1 ==> st.index != 1 && r.0.index == Target(st.index) && r.0.current.Some?
    ensures !r.1 ==> r.0 == st || (r.0.index == 0 && r.0.current.None?)
    ensures st.index == 1 || st.dir.None? ==> r == (st, false)
  {
    if Target(st.index) == 0 || st.dir.None? then (st, false)
    else
      var entries := st.dir.value.entries;
      var t := Target(st.index);
      var e := EntryAt(entries, t);
      var l := Listing(entries, Min(t, |entries|));
      if e.Some? then (CursorState(Some(l), e, t), true)
      else (CursorState(Some(l), None, 0), false)
  }

  /** close*List: both handles closed, position 0. */
  function CloseState(st: CursorState): (r: CursorState)
    ensures Consistent(r) && r.index == 0 && r.dir.None? && r.current.None?
  {
    Closed
  }

  /** Closing twice is closing once. */
  lemma CloseIdempotent(st: CursorState)
    ensures CloseState(CloseState(st)) == CloseState(st)
  {
  }

  /** next: success exactly when an entry is left to take; on success the position
      goes up by one and the current file is the entry at the new position;
      at the end the position stays and there is no current file. */
  lemma NextSpec(st: CursorState)
    requires Consistent(st) && st.dir.Some?
    ensures NextState(st).1 <==> st.dir.value.pos < |st.dir.value.entries|
    ensures NextState(st).1 ==>
      (st.index == st.dir.value.pos && NextState(st).0.index == st.index + 1
       && NextState(st).0.current == EntryAt(st.dir.value.entries, st.index + 1))
    ensures !NextState(st).1 ==> NextState(st).0.index == st.index && NextState(st).0.current.None?
  {
  }

  /** n calls of next. */
  function Steps(st: CursorState, n: nat): CursorState
  {
    if n == 0 then st else NextState(Steps(st, n - 1)).0
  }

  /** From a freshly opened directory, n nexts (n at most the number of
      entries) all succeed and stand on the n-th raw entry. */
  lemma {:induction false} StepsFromOpen(entries: seq<Handle>, c: Option<Handle>, n: nat)
    requires 1 <= n <= |entries|
    ensures Steps(CursorState(Some(Listing(entries, 0)), c, 0), n)
      == CursorState(Some(Listing(entries, n)), EntryAt(entries, n), n)
    ensures NextState(Steps(CursorState(Some(Listing(entries, 0)), c, 0), n - 1)).1
  {
    var st0 := CursorState(Some(Listing(entries, 0)), c, 0);
    if n > 1 {
      StepsFromOpen(entries, c, n - 1);
    }
  }

  /** Walking a listing of N entries (none included): after N nexts the
      cursor is at N, and the next one fails and leaves it there. */
  lemma WalkWholeListing(entries: seq<Handle>, c: Option<Handle>)
    ensures var last := Steps(CursorState(Some(Listing(entries, 0)), c, 0), |entries|);
      last.index == |entries| && !NextState(last).1 && NextState(last).0.index == |entries|
  {
    if |entries| >= 1 {
      StepsFromOpen(entries, c, |entries|);
    }
  }

  /** Rewind-and-replay is the same as opening the directory afresh and
      calling next k - 1 times: previous from position k >= 2 lands on the
      entry the (k-1)-th next returned, at position k - 1. */
  lemma PreviousIsReplay(st: CursorState, c: Option<Handle>)
    requires Consistent(st) && st.dir.Some? && st.index >= 2
    ensures PreviousState(st) == (Steps(CursorState(Some(Listing(st.dir.value.entries, 0)), c, 0), st.index - 1), true)
  {
    StepsFromOpen(st.dir.value.entries, c, st.index - 1);
  }

  /** previous at position 1 fails and changes nothing. */
  lemma PreviousAtFirst(st: CursorState)
    requires st.index == 1
    ensures PreviousState(st) == (st, false)
  {
  }

  /** previous on a freshly opened (or exhausted-by-previous) list: the
      wrapped target lies past the end of any shorter listing, so the whole
      directory is read through and the cursor ends at 0 with no file. */
  lemma PreviousAtZero(st: CursorState)
    requires Consistent(st) && st.dir.Some? && st.index == 0
    requires |st.dir.value.entries| < IndexMax
    ensures PreviousState(st)
      == (CursorState(Some(Listing(st.dir.value.entries, |st.dir.value.entries|)), None, 0), false)
  {
  }

  /** next then previous returns to the position it started from, standing
      on the same raw entry again. */
  lemma NextThenPrevious(st: CursorState)
    requires Consistent(st) && st.dir.Some? && st.index >= 1 && NextState(st).1
    ensures PreviousState(NextState(st).0).1
    ensures PreviousState(NextState(st).0).0
      == CursorState(st.dir, EntryAt(st.dir.value.entries, st.index), st.index)
  {
  }

  /** One cursor: the state of CursorState, held in fields that the list
      operations update in place. */
  class DirCursor {
    var dir: Option<Listing>
    var current: Option<Handle>
    var index: nat

    function State(): CursorState
      reads this
    {
      CursorState(dir, current, index)
    }

    ghost predicate Valid()
      reads this
    {
      Consistent(State())
    }

    constructor ()
      ensures State() == Closed && Valid()
    {
      dir, current, index := None, None, 0;
    }

    /** Index reset, old directory closed, new one opened. */
    method Open(listing: Option<seq<Handle>>) returns (ok: bool)
      modifies this
      ensures State() == OpenState(old(State()), listing)
      ensures ok == listing.Some?
      ensures old(Valid()) ==> Valid()
    {
      index := 0;
      dir := None;
      if listing.Some? {
        dir := Some(Listing(listing.value, 0));
      }
      ok := dir.Some?;
    }

    method Next() returns (res: bool)
      modifies this
      ensures (State(), res) == NextState(old(State()))
      ensures old(Valid()) ==> Valid()
    {
      res := false;
      if dir.Some? {
        current := None;
        // openNextFile
        var l := dir.value;
        if l.pos < |l.entries| {
          dir := Some(l.(pos := l.pos + 1));
          current := Some(l.entries[l.pos]);
          index := index + 1;
          res := true;
        }
      }
    }

    /** Rewind the directory and take entries again until position
        Target(index) is reached. */
    method Previous() returns (res: bool)
      modifies this
      ensures (State(), res) == PreviousState(old(State()))
      ensures old(Valid()) ==> Valid()
    {
      res := false;
      if Target(index) != 0 && dir.Some? {
        var entries, t := dir.value.entries, Target(index);
        // close the current file, rewindDirectory, then openNextFile
        var pos := 0;
        var file: Option<Handle> := None;
        if pos < |entries| {
          file := Some(entries[pos]);
          pos := pos + 1;
        }
        var i := 1;
        while i != t
          invariant 1 <= i <= t
          invariant pos == Min(i, |entries|)
          invariant file == EntryAt(entries, i)
          decreases t - i
        {
          // close the current file, open the next one
          file := None;
          if pos < |entries| {
            file := Some(entries[pos]);
            pos := pos + 1;
          }
          i := i + 1;
        }
        dir := Some(Listing(entries, pos));
        current := file;
        if file.Some? {
          index := i;
          res := true;
        } else {
          index := 0;
        }
      }
    }

    method Close()
      modifies this
      ensures State() == CloseState(old(State()))
      ensures Valid()
    {
      index := 0;
      dir := None;
      current := None;
    }
  }
}
