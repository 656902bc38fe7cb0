/** How much room a decode needs: when it succeeds, and how full the array is when it does not. */
module DecodeRoom {
  import opened X86
  import opened DecodeRun

  // ---- Without the filter -------------------------------------------------------------------------

  /** What a chunk adds to the wanted entries, without the filter. */
  lemma {:induction false} ChunkUpToStop(c: Config, chunk: Chunk, code: Code, p: nat, es: seq<DInst>, room: nat)
    requires c.Proper() && !c.fcOnly && 1 <= chunk.n && p + chunk.n <= |code.bytes|
    ensures var now := Entries(chunk, code, c.mask, p);
            match ActionOn(c, chunk, code, p, room)
            case GiveUp => |UpToStop(c, now + es)| >= |now| > room
            case Skip => false
            case Use => UpToStop(c, now + es) == now + UpToStop(c, es)
            case UseAndStop => UpToStop(c, now + es) == now
  {
    var now := Entries(chunk, code, c.mask, p);
    NoFilter(c, now + es);
    NoFilter(c, es);
    WantedOfChunk(c, chunk, code, p, es, if ActionOn(c, chunk, code, p, room) == GiveUp then |now| else room);
  }

  /** The wanted entries at `p`, from those at `q` behind the next chunk. */
  lemma {:induction false} PlainUpToStop(step: Step, c: Config, code: Code, p: nat, room: nat, q: nat)
    requires Fits(step) && c.Proper() && !c.fcOnly && p < |code.bytes| && q == p + ChunkAt(step, code, p).n
    ensures var chunk := ChunkAt(step, code, p);
            var now, rest := Entries(chunk, code, c.mask, p), UpToStop(c, Plain(step, c.mask, code, q));
            var all := UpToStop(c, Plain(step, c.mask, code, p));
            match ActionOn(c, chunk, code, p, room)
            case GiveUp => |all| >= |now| > room
            case Skip => false
            case Use => all == now + rest
            case UseAndStop => all == now
  {
    var chunk := ChunkAt(step, code, p);
    PlainIs(step, c.mask, code, p, chunk, q);
    ChunkUpToStop(c, chunk, code, p, Plain(step, c.mask, code, q), room);
  }

  lemma {:induction false} RunUses(step: Step, c: Config, code: Code, p: nat, room: nat, q: nat, left: nat)
    requires Fits(step) && c.Proper() && p < |code.bytes| && q == p + ChunkAt(step, code, p).n
    requires ActionOn(c, ChunkAt(step, code, p), code, p, room) == Use
    requires left + |Entries(ChunkAt(step, code, p), code, c.mask, p)| == room
    ensures Run(step, c, code, p, room)
            == After(Entries(ChunkAt(step, code, p), code, c.mask, p), Run(step, c, code, q, left))
  {
  }

  /** A run finishes with all that is wanted if there is room, and gives up if not. */
  predicate FinishesWith(whole: seq<DInst>, r: Returned, room: nat) {
    if |whole| <= room then r == Returned(Finished, whole) else r.outcome == OutOfRoom
  }

  lemma {:induction false} FinishesHere(step: Step, c: Config, code: Code, p: nat, room: nat)
    requires Fits(step) && c.Proper() && !c.fcOnly && p < |code.bytes|
    requires ActionOn(c, ChunkAt(step, code, p), code, p, room) != Use
    ensures FinishesWith(UpToStop(c, Plain(step, c.mask, code, p)), Run(step, c, code, p, room), room)
  {
    PlainUpToStop(step, c, code, p, room, p + ChunkAt(step, code, p).n);
  }

  lemma {:induction false} FinishesAfter(now: seq<DInst>, rest: seq<DInst>, r: Returned, room: nat, left: nat)
    requires FinishesWith(rest, r, left) && left + |now| == room
    ensures FinishesWith(now + rest, After(now, r), room)
  {
  }

  lemma {:induction false} FinishesLater(step: Step, c: Config, code: Code, p: nat, room: nat, q: nat, left: nat)
    requires Fits(step) && c.Proper() && !c.fcOnly && p < |code.bytes| && q == p + ChunkAt(step, code, p).n
    requires ActionOn(c, ChunkAt(step, code, p), code, p, room) == Use
    requires left + |Entries(ChunkAt(step, code, p), code, c.mask, p)| == room
    requires FinishesWith(UpToStop(c, Plain(step, c.mask, code, q)), Run(step, c, code, q, left), left)
    ensures FinishesWith(UpToStop(c, Plain(step, c.mask, code, p)), Run(step, c, code, p, room), room)
  {
    PlainUpToStop(step, c, code, p, room, q);
    RunUses(step, c, code, p, room, q, left);
    FinishesAfter(Entries(ChunkAt(step, code, p), code, c.mask, p), UpToStop(c, Plain(step, c.mask, code, q)),
                  Run(step, c, code, q, left), room, left);
  }

  /**
   A run without the filter finishes if and only if there is room for the plain result up to its first stop, one
   element for each entry.
   */
  lemma {:induction false} FinishesWithRoom(step: Step, c: Config, code: Code, p: nat, room: nat)
    requires Fits(step) && c.Proper() && !c.fcOnly && p <= |code.bytes|
    ensures var whole, r := UpToStop(c, Plain(step, c.mask, code, p)), Run(step, c, code, p, room);
            FinishesWith(whole, r, room)
    decreases |code.bytes| - p
  {
    if p < |code.bytes| {
      var chunk := ChunkAt(step, code, p);
      if ActionOn(c, chunk, code, p, room) == Use {
        var q, left := p + chunk.n, room - |Entries(chunk, code, c.mask, p)|;
        FinishesWithRoom(step, c, code, q, left);
        FinishesLater(step, c, code, p, room, q, left);
      } else {
        FinishesHere(step, c, code, p, room);
      }
    }
  }

  /** So room for the whole plain result is enough. */
  lemma {:induction false} RoomForAll(step: Step, c: Config, code: Code, p: nat, room: nat)
    requires Fits(step) && c.Proper() && !c.fcOnly && p <= |code.bytes|
    requires |Plain(step, c.mask, code, p)| <= room
    ensures Run(step, c, code, p, room) == Returned(Finished, UpToStop(c, Plain(step, c.mask, code, p)))
  {
    FinishesWithRoom(step, c, code, p, room);
    UpToStopIsShortest(c, Plain(step, c.mask, code, p));
  }

  lemma {:induction false} GivesUpFull(step: Step, c: Config, code: Code, p: nat, room: nat)
    requires Fits(step) && c.Proper() && !c.fcOnly && p <= |code.bytes|
    requires Run(step, c, code, p, room).outcome == OutOfRoom
    ensures var g := GivesUpAt(step, c, code, p, room);
            g < |code.bytes|
            && |Run(step, c, code, p, room).used| + |Entries(ChunkAt(step, code, g), code, c.mask, g)| > room
    decreases |code.bytes| - p
  {
    var chunk := ChunkAt(step, code, p);
    var now, q := Entries(chunk, code, c.mask, p), p + chunk.n;
    if ActionOn(c, chunk, code, p, room) == Use {
      GivesUpFull(step, c, code, q, room - |now|);
    }
  }

  /**
   A run without the filter gives up only when it has to: the entries used and those of the next step, which starts
   right behind them, are more than there is room for.
   */
  lemma {:induction false} GivesUpWhenFull(step: Step, c: Config, code: Code, p: nat, room: nat)
    requires Fits(step) && c.Proper() && !c.fcOnly && p <= |code.bytes|
    requires Run(step, c, code, p, room).outcome == OutOfRoom
    ensures var used := Run(step, c, code, p, room).used;
            var q := p + Covered(used);
            && q < |code.bytes| && |used| <= room
            && |used| + |Entries(ChunkAt(step, code, q), code, c.mask, q)| > room
  {
    GivesUpFull(step, c, code, p, room);
    CoveredUpToThere(step, c, code, p, room);
    NeverPastCapacity(step, c, code, p, room);
  }

  // ---- With the filter ----------------------------------------------------------------------------

  /** Whole steps lead from `p` to `q`. */
  ghost predicate Comes(step: Step, code: Code, p: nat, q: nat)
    requires Fits(step) && p <= |code.bytes|
    decreases |code.bytes| - p
  {
    p == q || (p < |code.bytes| && Comes(step, code, p + ChunkAt(step, code, p).n, q))
  }

  /** What is decoded between them. */
  ghost function Between(step: Step, mask: Mask, code: Code, p: nat, q: nat): seq<DInst>
    requires Fits(step) && p <= |code.bytes| && Comes(step, code, p, q)
    decreases |code.bytes| - p
  {
    if p == q then []
    else
      var chunk := ChunkAt(step, code, p);
      Entries(chunk, code, mask, p) + Between(step, mask, code, p + chunk.n, q)
  }

  /**
   At `q` something other than prefixes is still to be decoded, nothing before it was to stop on, and the entries that
   pass the filter already fill the array.
   */
  ghost predicate FullAt(step: Step, c: Config, code: Code, p: nat, room: nat, q: nat)
    requires Fits(step) && p <= |code.bytes|
  {
    && Comes(step, code, p, q) && q < |code.bytes| && !ChunkAt(step, code, q).OnlyPrefixes?
    && |Kept(c, Between(step, c.mask, code, p, q))| == room
    && forall e | e in Kept(c, Between(step, c.mask, code, p, q)) :: !Ends(c, e)
  }

  lemma {:induction false} KeptOfChunk(c: Config, chunk: Chunk, code: Code, p: nat, es: seq<DInst>)
    requires c.Proper() && c.fcOnly && p + chunk.n <= |code.bytes|
    ensures var now := Entries(chunk, code, c.mask, p);
            Kept(c, now + es) == if chunk.One? && Keeps(c, now[0]) then now + Kept(c, es) else Kept(c, es)
  {
    if chunk.One? {
      var now := Entries(chunk, code, c.mask, p);
      assert (now + es)[1..] == es;
    } else {
      KeptOfDrops(c, code, p, chunk.n, es);
    }
  }

  lemma {:induction false} FullOneEarlier(step: Step, c: Config, code: Code, p: nat, room: nat, q: nat, q': nat)
    requires Fits(step) && c.Proper() && c.fcOnly && p < |code.bytes| && q == p + ChunkAt(step, code, p).n
    requires q <= q' < |code.bytes|
    ensures var chunk := ChunkAt(step, code, p);
            match ActionOn(c, chunk, code, p, room)
            case GiveUp => room == 0
            case Skip => FullAt(step, c, code, q, room, q') <==> FullAt(step, c, code, p, room, q')
            case Use => FullAt(step, c, code, q, room - 1, q') <==> FullAt(step, c, code, p, room, q')
            case UseAndStop => !FullAt(step, c, code, p, room, q')
  {
    if Comes(step, code, q, q') {
      var chunk := ChunkAt(step, code, p);
      var now, es := Entries(chunk, code, c.mask, p), Between(step, c.mask, code, q, q');
      assert Between(step, c.mask, code, p, q') == now + es;
      KeptOfChunk(c, chunk, code, p, es);
      if chunk.One? && Keeps(c, now[0]) {
        assert forall e :: e in now + Kept(c, es) <==> e == now[0] || e in Kept(c, es);
        assert Ends(c, now[0]) <==> Stops(c, now[0]);
      }
    }
  }

  lemma {:induction false} GivesUpFullAt(step: Step, c: Config, code: Code, p: nat, room: nat) returns (q: nat)
    requires Fits(step) && c.Proper() && c.fcOnly && p <= |code.bytes|
    requires Run(step, c, code, p, room).outcome == OutOfRoom
    ensures p <= q && FullAt(step, c, code, p, room, q)
    decreases |code.bytes| - p
  {
    var chunk := ChunkAt(step, code, p);
    var next := p + chunk.n;
    match ActionOn(c, chunk, code, p, room)
    case GiveUp => q := p;
    case Skip =>
      q := GivesUpFullAt(step, c, code, next, room);
      FullOneEarlier(step, c, code, p, room, next, q);
    case Use =>
      q := GivesUpFullAt(step, c, code, next, room - 1);
      FullOneEarlier(step, c, code, p, room, next, q);
    case UseAndStop =>
  }

  lemma {:induction false} ComesOnwards(step: Step, code: Code, p: nat, q: nat)
    requires Fits(step) && p <= |code.bytes| && Comes(step, code, p, q)
    ensures p <= q <= |code.bytes|
    decreases |code.bytes| - p
  {
    if p != q {
      ComesOnwards(step, code, p + ChunkAt(step, code, p).n, q);
    }
  }

  lemma {:induction false} FullGivesUp(step: Step, c: Config, code: Code, p: nat, room: nat, q: nat)
    requires Fits(step) && c.Proper() && c.fcOnly && p <= |code.bytes| && FullAt(step, c, code, p, room, q)
    ensures Run(step, c, code, p, room).outcome == OutOfRoom
    decreases |code.bytes| - p
  {
    ComesOnwards(step, code, p, q);
    var chunk := ChunkAt(step, code, p);
    var next := p + chunk.n;
    if p < q {
      ComesOnwards(step, code, next, q);
      FullOneEarlier(step, c, code, p, room, next, q);
      match ActionOn(c, chunk, code, p, room)
      case GiveUp =>
      case Skip => FullGivesUp(step, c, code, next, room, q);
      case Use => FullGivesUp(step, c, code, next, room - 1, q);
      case UseAndStop =>
    }
  }

  /** A run uses all that is wanted if it finishes, and fills the array if it does not. */
  predicate UsesOf(whole: seq<DInst>, r: Returned, room: nat) {
    if r.outcome == Finished then r.used == whole else |r.used| == room && r.used <= whole
  }

  lemma {:induction false} RunSkips(step: Step, c: Config, code: Code, p: nat, room: nat, q: nat)
    requires Fits(step) && c.Proper() && p < |code.bytes| && q == p + ChunkAt(step, code, p).n
    requires ActionOn(c, ChunkAt(step, code, p), code, p, room) == Skip
    ensures Run(step, c, code, p, room) == Run(step, c, code, q, room)
  {
  }

  lemma {:induction false} UsesAfter(e: DInst, rest: seq<DInst>, r: Returned, left: nat)
    requires UsesOf(rest, r, left)
    ensures UsesOf([e] + rest, After([e], r), left + 1)
  {
  }

  /** What a chunk adds to the wanted entries, with the filter. */
  lemma {:induction false} PlainWanted(step: Step, c: Config, code: Code, p: nat, room: nat, q: nat)
    requires Fits(step) && c.Proper() && c.fcOnly && p < |code.bytes| && q == p + ChunkAt(step, code, p).n
    ensures var now, rest := Entries(ChunkAt(step, code, p), code, c.mask, p), Wanted(c, Plain(step, c.mask, code, q));
            var all := Wanted(c, Plain(step, c.mask, code, p));
            match ActionOn(c, ChunkAt(step, code, p), code, p, room)
            case GiveUp => room == 0
            case Skip => all == rest
            case Use => |now| == 1 && all == now + rest && room > 0
            case UseAndStop => |now| == 1 && all == now
  {
    var chunk := ChunkAt(step, code, p);
    PlainIs(step, c.mask, code, p, chunk, q);
    WantedOfChunk(c, chunk, code, p, Plain(step, c.mask, code, q), room);
  }

  lemma {:induction false} FilteredHere(step: Step, c: Config, code: Code, p: nat, room: nat)
    requires Fits(step) && c.Proper() && c.fcOnly && p < |code.bytes|
    requires var action := ActionOn(c, ChunkAt(step, code, p), code, p, room); action == GiveUp || action == UseAndStop
    ensures UsesOf(Wanted(c, Plain(step, c.mask, code, p)), Run(step, c, code, p, room), room)
  {
    PlainWanted(step, c, code, p, room, p + ChunkAt(step, code, p).n);
  }

  lemma {:induction false} FilteredUses(step: Step, c: Config, code: Code, p: nat, room: nat)
    requires Fits(step) && c.Proper() && c.fcOnly && p <= |code.bytes|
    ensures UsesOf(Wanted(c, Plain(step, c.mask, code, p)), Run(step, c, code, p, room), room)
    decreases |code.bytes| - p, 1
  {
    if p < |code.bytes| {
      var chunk := ChunkAt(step, code, p);
      var q := p + chunk.n;
      match ActionOn(c, chunk, code, p, room)
      case Skip =>
        FilteredUses(step, c, code, q, room);
        PlainWanted(step, c, code, p, room, q);
        RunSkips(step, c, code, p, room, q);
      case Use => FilteredMore(step, c, code, p, room, q);
      case _ => FilteredHere(step, c, code, p, room);
    }
  }

  lemma {:induction false} FilteredMore(step: Step, c: Config, code: Code, p: nat, room: nat, q: nat)
    requires Fits(step) && c.Proper() && c.fcOnly && p < |code.bytes| && q == p + ChunkAt(step, code, p).n
    requires ActionOn(c, ChunkAt(step, code, p), code, p, room) == Use
    ensures UsesOf(Wanted(c, Plain(step, c.mask, code, p)), Run(step, c, code, p, room), room)
    decreases |code.bytes| - p, 0
  {
    var left := room - 1;
    var now := Entries(ChunkAt(step, code, p), code, c.mask, p);
    FilteredUses(step, c, code, q, left);
    PlainWanted(step, c, code, p, room, q);
    RunUses(step, c, code, p, room, q, left);
    assert now == [now[0]];
    UsesAfter(now[0], Wanted(c, Plain(step, c.mask, code, q)), Run(step, c, code, q, left), left);
  }

  /**
   A run with the filter gives up if and only if it comes, before anything to stop on, to an instruction or to bytes
   that do not decode with the array full of wanted entries; this one need not be wanted.  It uses the wanted entries,
   as far as there is room.
   */
  lemma {:induction false} FilteredRoom(step: Step, c: Config, code: Code, p: nat, room: nat)
    requires Fits(step) && c.Proper() && c.fcOnly && p <= |code.bytes|
    ensures var r, whole := Run(step, c, code, p, room), Wanted(c, Plain(step, c.mask, code, p));
            && (r.outcome == OutOfRoom <==> exists q :: FullAt(step, c, code, p, room, q))
            && r.used == whole[..if |whole| < room then |whole| else room]
            && (|whole| < room ==> r.outcome == Finished) && (|whole| > room ==> r.outcome == OutOfRoom)
  {
    FilteredUses(step, c, code, p, room);
    NeverPastCapacity(step, c, code, p, room);
    if Run(step, c, code, p, room).outcome == OutOfRoom {
      var q := GivesUpFullAt(step, c, code, p, room);
    }
    forall q | FullAt(step, c, code, p, room, q)
      ensures Run(step, c, code, p, room).outcome == OutOfRoom
    {
      FullGivesUp(step, c, code, p, room, q);
    }
  }
}
