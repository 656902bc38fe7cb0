/**
 What a whole decode returns: the plain result, and what flow control filter, stop flags and capacity make of it.
 Nothing here depends on how the next bytes are decoded, only on how many of them a step covers.
 */
module DecodeRun {
  import opened X86

  /** What a result entry says of its bytes: a known instruction, a lone WAIT, or a byte that does not decode. */
  datatype What = Known(info: Info) | Wait | Dropped(byte: Byte)

  /** An entry of the result: where it is, how many bytes it covers, and what they are. */
  datatype DInst = DInst(addr: nat, size: nat, what: What)

  /** The next bytes: prefixes and nothing else, an instruction with its prefixes, or bytes that do not decode. */
  datatype Chunk = OnlyPrefixes(n: nat) | One(what: What, n: nat) | Lost(n: nat)

  /** What the decoder makes of the next bytes of a stream. */
  type Step = seq<Byte> -> Chunk

  predicate ChunkFits(chunk: Chunk, s: seq<Byte>) {
    s != [] ==> 1 <= chunk.n <= |s| && (chunk.One? ==> !chunk.what.Dropped?)
  }

  /** Every step covers at least one of the remaining bytes, and no more than there are. */
  ghost predicate Fits(step: Step) {
    forall s {:trigger step(s)} :: ChunkFits(step(s), s)
  }

  /** How addresses are cut to the size they may have. */
  type Mask = nat -> nat

  /** Address mask, flow control filter, and the flow control classes to stop on. */
  datatype Config = Config(mask: Mask, fcOnly: bool, stops: set<FlowControl>)
  {
    predicate Proper() { FC_NONE !in stops }
  }

  datatype Outcome = Finished | OutOfRoom

  /** A stream of bytes, and the address of its first. */
  datatype Code = Code(bytes: seq<Byte>, offset: nat)

  /** The address of the byte at `p`. */
  function Addr(code: Code, p: nat, mask: Mask): nat
  {
    mask(code.offset + p)
  }

  function FlowOf(what: What): FlowControl { if what.Known? then what.info.fc else FC_NONE }

  /** One entry for each of the `n` bytes from `p` on. */
  function Drops(code: Code, mask: Mask, p: nat, n: nat): (es: seq<DInst>)
    requires p + n <= |code.bytes|
    ensures |es| == n
    decreases n
  {
    if n == 0 then []
    else [DInst(Addr(code, p, mask), 1, Dropped(code.bytes[p]))] + Drops(code, mask, p + 1, n - 1)
  }

  lemma {:induction false} DropsAt(code: Code, mask: Mask, p: nat, n: nat, i: nat)
    requires p + n <= |code.bytes| && i < n
    ensures Drops(code, mask, p, n)[i] == DInst(Addr(code, p + i, mask), 1, Dropped(code.bytes[p + i]))
    decreases i
  {
    if i > 0 {
      DropsAt(code, mask, p + 1, n - 1, i - 1);
    }
  }

  /** The entries for a chunk that starts at `p`. */
  function Entries(chunk: Chunk, code: Code, mask: Mask, p: nat): seq<DInst>
    requires p + chunk.n <= |code.bytes|
  {
    if chunk.One? then [DInst(Addr(code, p, mask), chunk.n, chunk.what)] else Drops(code, mask, p, chunk.n)
  }

  /** The chunk at `p`. */
  ghost function ChunkAt(step: Step, code: Code, p: nat): (chunk: Chunk)
    requires Fits(step) && p < |code.bytes|
    ensures 1 <= chunk.n && p + chunk.n <= |code.bytes| && (chunk.One? ==> !chunk.what.Dropped?)
  {
    assert ChunkFits(step(code.bytes[p..]), code.bytes[p..]);
    step(code.bytes[p..])
  }

  // ---- The plain result, and the run -----------------------------------------------------

  /** Everything decoded from `p` on, without filter, stop flags or bound. */
  ghost function Plain(step: Step, mask: Mask, code: Code, p: nat): seq<DInst>
    requires Fits(step) && p <= |code.bytes|
    decreases |code.bytes| - p
  {
    if p == |code.bytes| then []
    else
      var chunk := ChunkAt(step, code, p);
      Entries(chunk, code, mask, p) + Plain(step, mask, code, p + chunk.n)
  }

  predicate Keeps(c: Config, e: DInst) { !(c.fcOnly && FlowOf(e.what) == FC_NONE) }

  predicate Stops(c: Config, e: DInst) { FlowOf(e.what) in c.stops }

  datatype Returned = Returned(outcome: Outcome, used: seq<DInst>)

  /** A run in progress, with `es` used before. */
  function After(es: seq<DInst>, rest: Returned): Returned { Returned(rest.outcome, es + rest.used) }

  /**
   What is to be done about the next chunk: skip it, use it and go on, use it and stop, or give up for lack of room.
   */
  datatype Action = Skip | Use | UseAndStop | GiveUp

  function ActionOn(c: Config, chunk: Chunk, code: Code, p: nat, room: nat): Action
    requires p + chunk.n <= |code.bytes|
  {
    match chunk
    case OnlyPrefixes(n) => if c.fcOnly then Skip else if n > room then GiveUp else Use
    case One(_, _) =>
      var e := Entries(chunk, code, c.mask, p)[0];
      if room < 1 then GiveUp else if !Keeps(c, e) then Skip else if Stops(c, e) then UseAndStop else Use
    case Lost(n) => if room < 1 then GiveUp else if c.fcOnly then Skip else if n > room then GiveUp else Use
  }

  /** decode_internal from `p` on: the outcome and the entries used, when there is room for `room` of them. */
  ghost function Run(step: Step, c: Config, code: Code, p: nat, room: nat): Returned
    requires Fits(step) && c.Proper() && p <= |code.bytes|
    decreases |code.bytes| - p
  {
    if p == |code.bytes| then Returned(Finished, [])
    else
      var chunk := ChunkAt(step, code, p);
      var es := Entries(chunk, code, c.mask, p);
      match ActionOn(c, chunk, code, p, room)
      case GiveUp => Returned(OutOfRoom, [])
      case Skip => Run(step, c, code, p + chunk.n, room)
      case Use => After(es, Run(step, c, code, p + chunk.n, room - |es|))
      case UseAndStop => Returned(Finished, es)
  }

  // ---- Tiling -----------------------------------------------------------------------------

  function Covered(es: seq<DInst>): nat { if es == [] then 0 else es[0].size + Covered(es[1..]) }

  /**
   The entries cover the stream from `p` on without gap or overlap, each at its address; what does not decode is
   an entry of one byte and tells that byte.
   */
  predicate Tiles(es: seq<DInst>, code: Code, mask: Mask, p: nat)
    requires p <= |code.bytes|
    decreases |es|
  {
    es == [] ||
    (&& 1 <= es[0].size && p + es[0].size <= |code.bytes| && es[0].addr == Addr(code, p, mask)
     && (es[0].what.Dropped? ==> es[0].size == 1 && es[0].what.byte == code.bytes[p])
     && Tiles(es[1..], code, mask, p + es[0].size))
  }

  lemma {:induction false} DropsTile(code: Code, mask: Mask, p: nat, n: nat, es: seq<DInst>)
    requires p + n <= |code.bytes| && Tiles(es, code, mask, p + n)
    ensures Tiles(Drops(code, mask, p, n) + es, code, mask, p)
    ensures Covered(Drops(code, mask, p, n) + es) == n + Covered(es)
    decreases n
  {
    var drops := Drops(code, mask, p, n);
    if n == 0 {
      assert drops + es == es;
    } else {
      DropsTile(code, mask, p + 1, n - 1, es);
      assert (drops + es)[1..] == drops[1..] + es;
    }
  }

  lemma {:induction false} ChunkTiles(chunk: Chunk, code: Code, mask: Mask, p: nat, es: seq<DInst>)
    requires 1 <= chunk.n && p + chunk.n <= |code.bytes| && (chunk.One? ==> !chunk.what.Dropped?)
    requires Tiles(es, code, mask, p + chunk.n)
    ensures Tiles(Entries(chunk, code, mask, p) + es, code, mask, p)
    ensures Covered(Entries(chunk, code, mask, p) + es) == chunk.n + Covered(es)
  {
    if chunk.One? {
      assert (Entries(chunk, code, mask, p) + es)[1..] == es;
    } else {
      DropsTile(code, mask, p, chunk.n, es);
    }
  }

  /** The plain result covers the whole stream. */
  lemma {:induction false} PlainTiles(step: Step, mask: Mask, code: Code, p: nat)
    requires Fits(step) && p <= |code.bytes|
    ensures Tiles(Plain(step, mask, code, p), code, mask, p)
    ensures Covered(Plain(step, mask, code, p)) == |code.bytes| - p
    decreases |code.bytes| - p
  {
    if p < |code.bytes| {
      var chunk := ChunkAt(step, code, p);
      PlainTiles(step, mask, code, p + chunk.n);
      ChunkTiles(chunk, code, mask, p, Plain(step, mask, code, p + chunk.n));
    }
  }

  lemma {:induction false} PrefixTiles(es: seq<DInst>, k: nat, code: Code, mask: Mask, p: nat)
    requires p <= |code.bytes| && k <= |es| && Tiles(es, code, mask, p)
    ensures Tiles(es[..k], code, mask, p) && p + Covered(es[..k]) <= |code.bytes|
    decreases k
  {
    if k > 0 {
      PrefixTiles(es[1..], k - 1, code, mask, p + es[0].size);
      assert es[..k][1..] == es[1..][..k - 1];
    }
  }

  /** What an entry of a tiling says: its address is that of the bytes before it. */
  lemma {:induction false} TileAt(es: seq<DInst>, code: Code, mask: Mask, p: nat, i: nat, at: nat)
    requires p <= |code.bytes| && Tiles(es, code, mask, p) && i < |es| && at == p + Covered(es[..i])
    ensures at + es[i].size <= |code.bytes| && es[i].size >= 1 && es[i].addr == mask(code.offset + at)
    ensures es[i].what.Dropped? ==> es[i].size == 1 && es[i].what.byte == code.bytes[at]
    decreases i
  {
    if i > 0 {
      assert es[..i][1..] == es[1..][..i - 1];
      TileAt(es[1..], code, mask, p + es[0].size, i - 1, at);
    }
  }

  lemma {:induction false} EntriesAreShort(chunk: Chunk, code: Code, mask: Mask, p: nat)
    requires 1 <= chunk.n && p + chunk.n <= |code.bytes|
    ensures forall i | 0 <= i < |Entries(chunk, code, mask, p)| :: Entries(chunk, code, mask, p)[i].size <= chunk.n
  {
    if !chunk.One? {
      forall i | 0 <= i < chunk.n
        ensures Entries(chunk, code, mask, p)[i].size <= chunk.n
      {
        DropsAt(code, mask, p, chunk.n, i);
      }
    }
  }

  /** No entry covers more bytes than the longest step. */
  lemma {:induction false} UsedAreShort(step: Step, c: Config, code: Code, p: nat, room: nat, longest: nat)
    requires Fits(step) && c.Proper() && p <= |code.bytes| && forall s {:trigger step(s)} :: step(s).n <= longest
    ensures forall i | 0 <= i < |Run(step, c, code, p, room).used| ::
              Run(step, c, code, p, room).used[i].size <= longest
    decreases |code.bytes| - p
  {
    if p < |code.bytes| {
      var chunk := ChunkAt(step, code, p);
      var now, q := Entries(chunk, code, c.mask, p), p + chunk.n;
      assert chunk.n <= longest;
      EntriesAreShort(chunk, code, c.mask, p);
      match ActionOn(c, chunk, code, p, room)
      case GiveUp =>
      case Skip => UsedAreShort(step, c, code, q, room, longest);
      case Use => UsedAreShort(step, c, code, q, room - |now|, longest);
      case UseAndStop =>
    }
  }

  // ---- Filter and stop flags ------------------------------------------------------------------

  function Kept(c: Config, es: seq<DInst>): seq<DInst> {
    if es == [] then []
    else if Keeps(c, es[0]) then [es[0]] + Kept(c, es[1..])
    else Kept(c, es[1..])
  }

  /** The shortest prefix that ends at an entry to stop on, or everything if there is none. */
  function UpToStop(c: Config, es: seq<DInst>): seq<DInst> {
    if es == [] then []
    else if Stops(c, es[0]) then [es[0]]
    else [es[0]] + UpToStop(c, es[1..])
  }

  /** A known instruction of a class to stop on. */
  predicate Ends(c: Config, e: DInst) { e.what.Known? && e.what.info.fc in c.stops }

  lemma {:induction false} UpToStopIsShortest(c: Config, es: seq<DInst>)
    requires c.Proper()
    ensures var r := UpToStop(c, es);
            && r <= es && (forall i | 0 <= i < |r| - 1 :: !Ends(c, r[i]))
            && (r != es ==> r != [] && Ends(c, r[|r| - 1]))
  {
    if es != [] && !Stops(c, es[0]) {
      UpToStopIsShortest(c, es[1..]);
    }
  }

  /** What is left of the plain result. */
  function Wanted(c: Config, es: seq<DInst>): seq<DInst> { UpToStop(c, Kept(c, es)) }

  lemma {:induction false} Regroup(a: seq<DInst>, b: seq<DInst>, c: seq<DInst>)
    ensures a + (b + c) == a + b + c
  {
  }

  lemma {:induction false} KeptOfDrops(c: Config, code: Code, p: nat, n: nat, es: seq<DInst>)
    requires c.Proper() && p + n <= |code.bytes|
    ensures var drops := Drops(code, c.mask, p, n);
            Kept(c, drops + es) == if c.fcOnly then Kept(c, es) else drops + Kept(c, es)
    decreases n
  {
    var drops := Drops(code, c.mask, p, n);
    if n == 0 {
      assert drops + es == es;
    } else {
      var d, rest := drops[0], Drops(code, c.mask, p + 1, n - 1);
      KeptOfDrops(c, code, p + 1, n - 1, es);
      assert ([d] + rest + es)[1..] == rest + es;
      Regroup([d], rest, Kept(c, es));
    }
  }

  lemma {:induction false} UpToStopOfDrops(c: Config, code: Code, p: nat, n: nat, es: seq<DInst>)
    requires c.Proper() && p + n <= |code.bytes|
    ensures var drops := Drops(code, c.mask, p, n); UpToStop(c, drops + es) == drops + UpToStop(c, es)
    decreases n
  {
    var drops := Drops(code, c.mask, p, n);
    if n == 0 {
      assert drops + es == es;
    } else {
      var d, rest := drops[0], Drops(code, c.mask, p + 1, n - 1);
      UpToStopOfDrops(c, code, p + 1, n - 1, es);
      assert ([d] + rest + es)[1..] == rest + es;
      Regroup([d], rest, UpToStop(c, es));
    }
  }

  lemma {:induction false} WantedOfDrops(c: Config, code: Code, p: nat, n: nat, es: seq<DInst>)
    requires c.Proper() && p + n <= |code.bytes|
    ensures var drops := Drops(code, c.mask, p, n);
            Wanted(c, drops + es) == if c.fcOnly then Wanted(c, es) else drops + Wanted(c, es)
  {
    KeptOfDrops(c, code, p, n, es);
    UpToStopOfDrops(c, code, p, n, Kept(c, es));
  }

  lemma {:induction false} WantedOfOne(c: Config, e: DInst, es: seq<DInst>)
    ensures Wanted(c, [e] + es)
            == if !Keeps(c, e) then Wanted(c, es) else if Stops(c, e) then [e] else [e] + Wanted(c, es)
  {
  }

  lemma {:induction false} WantedOfChunk(c: Config, chunk: Chunk, code: Code, p: nat, es: seq<DInst>, room: nat)
    requires c.Proper() && p + chunk.n <= |code.bytes|
    ensures var now := Entries(chunk, code, c.mask, p);
            var all := Wanted(c, now + es);
            match ActionOn(c, chunk, code, p, room)
            case GiveUp => true
            case Skip => all == Wanted(c, es)
            case Use => all == now + Wanted(c, es)
            case UseAndStop => all == now
  {
    if chunk.One? {
      WantedOfOne(c, Entries(chunk, code, c.mask, p)[0], es);
    } else {
      WantedOfDrops(c, code, p, chunk.n, es);
    }
  }

  /**
   With room for as many entries as there are bytes, a run never fails, and returns the plain result with filter
   and stop flags applied.
   */
  lemma {:induction false} RunIsWanted(step: Step, c: Config, code: Code, p: nat, room: nat)
    requires Fits(step) && c.Proper() && p <= |code.bytes| && room >= |code.bytes| - p
    ensures Run(step, c, code, p, room) == Returned(Finished, Wanted(c, Plain(step, c.mask, code, p)))
    decreases |code.bytes| - p
  {
    if p < |code.bytes| {
      var chunk := ChunkAt(step, code, p);
      var now, q := Entries(chunk, code, c.mask, p), p + chunk.n;
      WantedOfChunk(c, chunk, code, p, Plain(step, c.mask, code, q), room);
      match ActionOn(c, chunk, code, p, room)
      case GiveUp =>
      case Skip => RunIsWanted(step, c, code, q, room);
      case Use => RunIsWanted(step, c, code, q, room - |now|);
      case UseAndStop =>
    }
  }

  lemma {:induction false} NoStops(c: Config, es: seq<DInst>)
    requires c.stops == {}
    ensures UpToStop(c, es) == es
  {
    if es != [] {
      NoStops(c, es[1..]);
    }
  }

  /** The flow control filter alone: exactly the plain entries with a flow control class. */
  lemma {:induction false} FilterAlone(c: Config, es: seq<DInst>)
    requires c.fcOnly && c.stops == {}
    ensures Wanted(c, es) == Kept(c, es)
    ensures forall e :: e in Wanted(c, es) <==> e in es && e.what.Known? && e.what.info.fc != FC_NONE
  {
    if es != [] {
      FilterAlone(c, es[1..]);
      NoStops(c, Kept(c, es));
    }
  }

  lemma {:induction false} NoFilter(c: Config, es: seq<DInst>)
    requires !c.fcOnly
    ensures Kept(c, es) == es && Wanted(c, es) == UpToStop(c, es)
  {
    if es != [] {
      NoFilter(c, es[1..]);
    }
  }

  // ---- Capacity and resuming ----------------------------------------------------------------------

  /** No more entries are used than there is room for. */
  lemma {:induction false} NeverPastCapacity(step: Step, c: Config, code: Code, p: nat, room: nat)
    requires Fits(step) && c.Proper() && p <= |code.bytes|
    ensures |Run(step, c, code, p, room).used| <= room
    decreases |code.bytes| - p
  {
    if p < |code.bytes| {
      var chunk := ChunkAt(step, code, p);
      var now, q := Entries(chunk, code, c.mask, p), p + chunk.n;
      match ActionOn(c, chunk, code, p, room)
      case GiveUp =>
      case Skip => NeverPastCapacity(step, c, code, q, room);
      case Use => NeverPastCapacity(step, c, code, q, room - |now|);
      case UseAndStop =>
    }
  }

  /** A run without the filter uses a prefix of the plain result, whatever room there is. */
  lemma {:induction false} RunIsPrefix(step: Step, c: Config, code: Code, p: nat, room: nat)
    requires Fits(step) && c.Proper() && !c.fcOnly && p <= |code.bytes|
    ensures Run(step, c, code, p, room).used <= Plain(step, c.mask, code, p)
    ensures Run(step, c, code, p, room).outcome == Finished ==>
              Run(step, c, code, p, room).used == UpToStop(c, Plain(step, c.mask, code, p))
    decreases |code.bytes| - p
  {
    if p < |code.bytes| {
      var chunk := ChunkAt(step, code, p);
      var now, q := Entries(chunk, code, c.mask, p), p + chunk.n;
      NoFilter(c, Plain(step, c.mask, code, p));
      NoFilter(c, Plain(step, c.mask, code, q));
      WantedOfChunk(c, chunk, code, p, Plain(step, c.mask, code, q), room);
      match ActionOn(c, chunk, code, p, room)
      case GiveUp =>
      case Skip =>
      case Use => RunIsPrefix(step, c, code, q, room - |now|);
      case UseAndStop =>
    }
  }

  /**
   Tiling: on every return of a run without the filter, the entries used cover a prefix of the stream without gap
   or overlap, and all of it if the run finished and had nothing to stop on.
   */
  lemma {:induction false} UsedTiles(step: Step, c: Config, code: Code, p: nat, room: nat)
    requires Fits(step) && c.Proper() && !c.fcOnly && p <= |code.bytes|
    ensures var r := Run(step, c, code, p, room);
            && Tiles(r.used, code, c.mask, p) && p + Covered(r.used) <= |code.bytes|
            && (r.outcome == Finished && c.stops == {} ==> p + Covered(r.used) == |code.bytes|)
  {
    var r, es := Run(step, c, code, p, room), Plain(step, c.mask, code, p);
    RunIsPrefix(step, c, code, p, room);
    PlainTiles(step, c.mask, code, p);
    PrefixTiles(es, |r.used|, code, c.mask, p);
    assert es[..|r.used|] == r.used;
    if c.stops == {} {
      NoStops(c, es);
    }
  }

  /** Where a run without the filter stops for lack of room. */
  ghost function GivesUpAt(step: Step, c: Config, code: Code, p: nat, room: nat): (g: nat)
    requires Fits(step) && c.Proper() && p <= |code.bytes|
    ensures p <= g <= |code.bytes|
    decreases |code.bytes| - p
  {
    if p == |code.bytes| then p
    else
      var chunk := ChunkAt(step, code, p);
      var now := Entries(chunk, code, c.mask, p);
      if ActionOn(c, chunk, code, p, room) == Use then GivesUpAt(step, c, code, p + chunk.n, room - |now|) else p
  }

  lemma {:induction false} PlainFromThere(step: Step, c: Config, code: Code, p: nat, room: nat)
    requires Fits(step) && c.Proper() && !c.fcOnly && p <= |code.bytes|
    requires Run(step, c, code, p, room).outcome == OutOfRoom
    ensures var g := GivesUpAt(step, c, code, p, room);
            && g < |code.bytes|
            && Plain(step, c.mask, code, p) == Run(step, c, code, p, room).used + Plain(step, c.mask, code, g)
    decreases |code.bytes| - p
  {
    var chunk := ChunkAt(step, code, p);
    var now, q := Entries(chunk, code, c.mask, p), p + chunk.n;
    if ActionOn(c, chunk, code, p, room) == Use {
      var g := GivesUpAt(step, c, code, q, room - |now|);
      PlainFromThere(step, c, code, q, room - |now|);
      Regroup(now, Run(step, c, code, q, room - |now|).used, Plain(step, c.mask, code, g));
    } else {
      assert [] + Plain(step, c.mask, code, p) == Plain(step, c.mask, code, p);
    }
  }

  lemma {:induction false} CoveredByDrops(code: Code, mask: Mask, p: nat, n: nat, es: seq<DInst>)
    requires p + n <= |code.bytes|
    ensures Covered(Drops(code, mask, p, n) + es) == n + Covered(es)
    decreases n
  {
    var drops := Drops(code, mask, p, n);
    if n == 0 {
      assert drops + es == es;
    } else {
      CoveredByDrops(code, mask, p + 1, n - 1, es);
      assert (drops + es)[1..] == drops[1..] + es;
    }
  }

  lemma {:induction false} CoveredByChunk(chunk: Chunk, code: Code, mask: Mask, p: nat, es: seq<DInst>)
    requires p + chunk.n <= |code.bytes|
    ensures Covered(Entries(chunk, code, mask, p) + es) == chunk.n + Covered(es)
  {
    if chunk.One? {
      assert (Entries(chunk, code, mask, p) + es)[1..] == es;
    } else {
      CoveredByDrops(code, mask, p, chunk.n, es);
    }
  }

  lemma {:induction false} CoveredUpToThere(step: Step, c: Config, code: Code, p: nat, room: nat)
    requires Fits(step) && c.Proper() && !c.fcOnly && p <= |code.bytes|
    requires Run(step, c, code, p, room).outcome == OutOfRoom
    ensures p + Covered(Run(step, c, code, p, room).used) == GivesUpAt(step, c, code, p, room)
    decreases |code.bytes| - p
  {
    var chunk := ChunkAt(step, code, p);
    var now, q := Entries(chunk, code, c.mask, p), p + chunk.n;
    if ActionOn(c, chunk, code, p, room) == Use {
      var used := Run(step, c, code, q, room - |now|).used;
      CoveredUpToThere(step, c, code, q, room - |now|);
      CoveredByChunk(chunk, code, c.mask, p, used);
    }
  }

  /**
   When a run without the filter gives up for lack of room, what it used is the start of the plain result, and
   decoding again from the first byte not covered gives exactly the rest.
   */
  lemma {:induction false} GivingUpResumes(step: Step, c: Config, code: Code, p: nat, room: nat)
    requires Fits(step) && c.Proper() && !c.fcOnly && p <= |code.bytes|
    requires Run(step, c, code, p, room).outcome == OutOfRoom
    ensures var used := Run(step, c, code, p, room).used;
            var q := p + Covered(used);
            q < |code.bytes| && Plain(step, c.mask, code, p) == used + Plain(step, c.mask, code, q)
  {
    PlainFromThere(step, c, code, p, room);
    CoveredUpToThere(step, c, code, p, room);
  }

  /** What is left of a stream from `p` on. */
  function RestOf(code: Code, p: nat): Code
    requires p <= |code.bytes|
  {
    Code(code.bytes[p..], code.offset + p)
  }

  lemma {:induction false} PlainIs(step: Step, mask: Mask, code: Code, p: nat, chunk: Chunk, q: nat)
    requires Fits(step) && p < |code.bytes| && chunk == ChunkAt(step, code, p) && q == p + chunk.n
    ensures Plain(step, mask, code, p) == Entries(chunk, code, mask, p) + Plain(step, mask, code, q)
  {
  }

  lemma {:induction false} ChunkOfRest(step: Step, code: Code, p: nat, q: nat, r: nat)
    requires Fits(step) && r == p + q < |code.bytes|
    ensures ChunkAt(step, RestOf(code, p), q) == ChunkAt(step, code, r)
  {
  }

  lemma {:induction false} EntriesOfRest(chunk: Chunk, code: Code, mask: Mask, p: nat, q: nat, r: nat)
    requires r == p + q && r + chunk.n <= |code.bytes|
    ensures Entries(chunk, RestOf(code, p), mask, q) == Entries(chunk, code, mask, r)
  {
    var rest := RestOf(code, p);
    assert Addr(rest, q, mask) == Addr(code, r, mask);
    if !chunk.One? {
      forall i | 0 <= i < chunk.n
        ensures Drops(rest, mask, q, chunk.n)[i] == Drops(code, mask, r, chunk.n)[i]
      {
        DropsAt(rest, mask, q, chunk.n, i);
        DropsAt(code, mask, r, chunk.n, i);
      }
    }
  }

  /** Decoding from `p` on is decoding a stream of its own; `r` is the place in the whole, `q` that in the rest. */
  lemma {:induction false} PlainOfRest(step: Step, mask: Mask, code: Code, p: nat, q: nat, r: nat)
    requires Fits(step) && r == p + q <= |code.bytes|
    ensures Plain(step, mask, RestOf(code, p), q) == Plain(step, mask, code, r)
    decreases |code.bytes| - r
  {
    if r < |code.bytes| {
      var rest := RestOf(code, p);
      var chunk := ChunkAt(step, code, r);
      ChunkOfRest(step, code, p, q, r);
      EntriesOfRest(chunk, code, mask, p, q, r);
      var q', r' := q + chunk.n, r + chunk.n;
      PlainOfRest(step, mask, code, p, q', r');
      PlainIs(step, mask, rest, q, chunk, q');
      PlainIs(step, mask, code, r, chunk, r');
    }
  }

  /** What is used before a run gives up for lack of room is nothing to stop on. */
  lemma {:induction false} UsedGoOn(step: Step, c: Config, code: Code, p: nat, room: nat, es: seq<DInst>)
    requires Fits(step) && c.Proper() && !c.fcOnly && p <= |code.bytes|
    requires Run(step, c, code, p, room).outcome == OutOfRoom
    ensures var used := Run(step, c, code, p, room).used; UpToStop(c, used + es) == used + UpToStop(c, es)
    decreases |code.bytes| - p
  {
    var chunk := ChunkAt(step, code, p);
    var now, q := Entries(chunk, code, c.mask, p), p + chunk.n;
    match ActionOn(c, chunk, code, p, room)
    case Use =>
      var rest := Run(step, c, code, q, room - |now|);
      UsedGoOn(step, c, code, q, room - |now|, es);
      NoFilter(c, now + (rest.used + es));
      NoFilter(c, rest.used + es);
      WantedOfChunk(c, chunk, code, p, rest.used + es, room);
      Regroup(now, rest.used, es);
      Regroup(now, rest.used, UpToStop(c, es));
    case GiveUp =>
      assert [] + es == es && [] + UpToStop(c, es) == UpToStop(c, es);
    case _ =>
  }

  /**
   After giving up for lack of room, decoding what is left as a stream of its own, at its own offset, completes the
   plain result, and with stop flags the result that enough room would have given.
   */
  lemma {:induction false} ResumesElsewhere(step: Step, c: Config, code: Code, room: nat)
    requires Fits(step) && c.Proper() && !c.fcOnly && Run(step, c, code, 0, room).outcome == OutOfRoom
    ensures var used := Run(step, c, code, 0, room).used;
            var n := Covered(used);
            && n < |code.bytes|
            && Plain(step, c.mask, code, 0) == used + Plain(step, c.mask, RestOf(code, n), 0)
            && Wanted(c, Plain(step, c.mask, code, 0)) == used + Wanted(c, Plain(step, c.mask, RestOf(code, n), 0))
  {
    var used := Run(step, c, code, 0, room).used;
    var n := Covered(used);
    GivingUpResumes(step, c, code, 0, room);
    assert 0 + n == n;
    PlainOfRest(step, c.mask, code, n, 0, n);
    var rest := Plain(step, c.mask, RestOf(code, n), 0);
    UsedGoOn(step, c, code, 0, room, rest);
    NoFilter(c, used + rest);
    NoFilter(c, rest);
  }
}
