/** The decoding loop: prefixes, one instruction, and the result array, again and again. */
module DecodeLoop {
  import opened X86
  import opened PrefixScan
  import opened OpcodeTrie
  import opened DecodeRoom
  import opened DecodeRun
  import D = DecodeInst

  // ---- One step --------------------------------------------------------------------------

  /** REX counts only right before the opcode, and most segment overrides do not count in 64 bits. */
  function Adjusted(ps: Prefixes, mode: Mode): Prefixes {
    if mode != Bits64 then ps
    else
      var ps1 := if Rex in ps.decoded && ps.rexPos != ps.last - 1 then WithoutPrefix(ps, Rex).(ext := NoExt) else ps;
      ps1.(decoded := ps1.decoded - SEGMENTS32)
  }

  /** What decode_inst says about the bytes behind the prefixes. */
  function VerdictBehind(t: Tables, s: seq<Byte>, mode: Mode): D.Verdict
    requires t.WellFormed() && PrefixesOf(s, mode).last < |s|
  {
    var ps := PrefixesOf(s, mode);
    D.VerdictOn(D.InstructionAt(t, s, ps.last, Adjusted(ps, mode), mode), s, ps.last)
  }

  function ChunkOf(t: Tables, s: seq<Byte>, mode: Mode): Chunk
    requires t.WellFormed()
  {
    var k := PrefixesOf(s, mode).last;
    if k == |s| || k == INST_MAXIMUM_SIZE then OnlyPrefixes(k)
    else
      var v := VerdictBehind(t, s, mode);
      if v.result == D.Success then One(v.what, k + if v.size > 0 then v.size else 0) else Lost(k + 1)
  }

  /** A step of the decoder covers at least one and at most fifteen of the remaining bytes. */
  lemma {:induction false} ChunkIsRight(t: Tables, s: seq<Byte>, mode: Mode)
    requires t.WellFormed()
    ensures ChunkFits(ChunkOf(t, s, mode), s) && ChunkOf(t, s, mode).n <= INST_MAXIMUM_SIZE
    ensures PrefixesOf(s, mode).last < |s| ==> VerdictBehind(t, s, mode).size > 0
  {
    var ps := PrefixesOf(s, mode);
    if ps.last < |s| {
      D.InstructionFits(t, s, ps.last, Adjusted(ps, mode), mode);
    }
  }

  function Steps(t: Tables, mode: Mode): Step
    requires t.WellFormed()
  {
    s => ChunkOf(t, s, mode)
  }

  lemma {:induction false} StepsFit(t: Tables, mode: Mode)
    requires t.WellFormed()
    ensures Fits(Steps(t, mode))
  {
    forall s
      ensures ChunkFits(Steps(t, mode)(s), s)
    {
      ChunkIsRight(t, s, mode);
    }
  }

  /** The part of the loop that reads prefixes, and notices when there is nothing else. */
  method ReadPrefixes(t: Tables, s: seq<Byte>, mode: Mode) returns (ps: PrefixState, only: bool)
    requires t.WellFormed() && s != []
    ensures fresh(ps) && ps.Value() == PrefixesOf(s, mode) && ps.last <= |s|
    ensures if only then ChunkOf(t, s, mode) == OnlyPrefixes(ps.last)
            else ps.last < |s| && !ChunkOf(t, s, mode).OnlyPrefixes?
  {
    ps := new PrefixState();
    if IsValid(s[0], mode) {
      ps.Decode(s, mode);
    } else {
      InvalidHasNone(s, mode);
    }
    only := ps.last == |s| || ps.last == INST_MAXIMUM_SIZE;
  }

  /** The part of the loop that decodes what follows the prefixes. */
  method DecodeBehind(t: Tables, s: seq<Byte>, mode: Mode, ps: PrefixState)
    returns (result: D.DecodeResult, what: What, size: nat)
    requires t.WellFormed() && ps.Value() == PrefixesOf(s, mode) && ps.last < |s|
    modifies ps
    ensures var v := VerdictBehind(t, s, mode); result == v.result && what == v.what && size == v.size
  {
    if mode == Bits64 {
      if Rex in ps.decoded {
        if ps.rexPos != ps.last - 1 {
          ps.decoded := ps.decoded - {Rex};
          ps.ext := NoExt;
        }
      }
      ps.decoded := ps.decoded - SEGMENTS32;
    }
    var ci := new CodeInfo(s, mode, ps.last);
    result, what, size := D.Decode(t, ci, ps);
  }

  // ---- The result array ---------------------------------------------------------------------

  /** An element of the caller's result array: an entry, or in the older interface the text made of it. */
  datatype Slot = Raw(inst: DInst) | Text(offset: nat, size: nat, hex: string)

  function Raws(es: seq<DInst>): (slots: seq<Slot>)
    ensures |slots| == |es| && forall i | 0 <= i < |es| :: slots[i] == Raw(es[i])
  {
    seq(|es|, i requires 0 <= i < |es| => Raw(es[i]))
  }

  lemma {:induction false} RawsOfBoth(a: seq<DInst>, b: seq<DInst>)
    ensures Raws(a + b) == Raws(a) + Raws(b)
  {
  }

  /** The loops that fill in one entry for each of `n` bytes that do not decode. */
  method PutDrops(result: array<Slot>, nextPos: nat, code: Code, mask: Mask, p: nat, n: nat) returns (pos: nat)
    requires p + n <= |code.bytes| && nextPos + n <= result.Length
    modifies result
    ensures pos == nextPos + n && result[..pos] == old(result[..nextPos]) + Raws(Drops(code, mask, p, n))
    ensures result[pos..] == old(result[pos..])
  {
    pos := nextPos;
    while pos < nextPos + n
      invariant nextPos <= pos <= nextPos + n
      invariant result[..nextPos] == old(result[..nextPos]) && result[pos..] == old(result[pos..])
      invariant forall i | nextPos <= i < pos :: result[i] == Raw(Drops(code, mask, p, n)[i - nextPos])
    {
      var i := pos - nextPos;
      DropsAt(code, mask, p, n, i);
      result[pos] := Raw(DInst(mask(code.offset + (p + i)), 1, Dropped(code.bytes[p + i])));
      pos := pos + 1;
    }
    assert result[..pos] == result[..nextPos] + result[nextPos..pos];
    assert result[nextPos..pos] == Raws(Drops(code, mask, p, n));
  }

  function UsedBy(c: Config, action: Action, chunk: Chunk, code: Code, p: nat): seq<DInst>
    requires p + chunk.n <= |code.bytes|
  {
    if action == Use || action == UseAndStop then Entries(chunk, code, c.mask, p) else []
  }

  /** What one turn of the loop did: `n` bytes are dealt with, and the entries used now end at `pos`. */
  twostate predicate Turned(c: Config, chunk: Chunk, code: Code, p: nat, room: nat, result: array<Slot>, nextPos: nat,
                            action: Action, n: nat, pos: nat)
    requires p + chunk.n <= |code.bytes| && nextPos + room <= result.Length
    reads result
  {
    && action == ActionOn(c, chunk, code, p, room) && (action != GiveUp ==> n == chunk.n)
    && nextPos <= pos <= nextPos + room
    && result[..pos] == old(result[..nextPos]) + Raws(UsedBy(c, action, chunk, code, p))
    && result[nextPos + room..] == old(result[nextPos + room..])
  }

  method TurnOnPrefixes(c: Config, code: Code, p: nat, n: nat, result: array<Slot>, nextPos: nat, room: nat)
    returns (action: Action, pos: nat)
    requires p + n <= |code.bytes| && nextPos + room <= result.Length
    modifies result
    ensures Turned(c, OnlyPrefixes(n), code, p, room, result, nextPos, action, n, pos)
  {
    if c.fcOnly {
      return Skip, nextPos;
    }
    if n > room {
      return GiveUp, nextPos;
    }
    pos := PutDrops(result, nextPos, code, c.mask, p, n);
    action := Use;
  }

  /** After decode_inst has filled in the entry at `nextPos`: filter it, undo it, or keep it. */
  method TurnOnInstruction(c: Config, code: Code, p: nat, decoded: D.DecodeResult, what: What, n: nat,
                           result: array<Slot>, nextPos: nat, room: nat)
    returns (action: Action, pos: nat)
    requires c.Proper() && p + n <= |code.bytes| && room >= 1 && nextPos + room <= result.Length
    requires decoded == D.InputError ==> what.Dropped?
    modifies result
    ensures var chunk := if decoded == D.Success then One(what, n) else Lost(n);
            Turned(c, chunk, code, p, room, result, nextPos, action, n, pos)
  {
    var e := DInst(c.mask(code.offset + p), n, what);
    result[nextPos] := Raw(e);
    pos := nextPos + 1;
    var filtered := c.fcOnly && FlowOf(what) == FC_NONE;
    if decoded == D.InputError && !c.fcOnly {
      pos := pos - 1;
      if n > room {
        return GiveUp, pos;
      }
      pos := PutDrops(result, nextPos, code, c.mask, p, n);
      return Use, pos;
    } else if filtered {
      return Skip, nextPos;
    }
    assert result[..pos] == old(result[..nextPos]) + Raws([e]);
    action := if FlowOf(what) in c.stops then UseAndStop else Use;
  }

  /** One turn of the loop of decode_internal. */
  method Turn(t: Tables, mode: Mode, c: Config, code: Code, p: nat, result: array<Slot>, nextPos: nat, room: nat)
    returns (action: Action, n: nat, pos: nat, ghost chunk: Chunk)
    requires t.WellFormed() && c.Proper() && p < |code.bytes| && nextPos + room <= result.Length
    modifies result
    ensures chunk == ChunkOf(t, code.bytes[p..], mode) && p + chunk.n <= |code.bytes|
    ensures Turned(c, chunk, code, p, room, result, nextPos, action, n, pos)
  {
    var s := code.bytes[p..];
    chunk := ChunkOf(t, s, mode);
    ChunkIsRight(t, s, mode);
    var ps, only := ReadPrefixes(t, s, mode);
    var prefixSize := ps.last;
    if only {
      action, pos := TurnOnPrefixes(c, code, p, prefixSize, result, nextPos, room);
      return action, prefixSize, pos, chunk;
    }
    if room < 1 {
      return GiveUp, 0, nextPos, chunk;
    }
    var decoded, what, size := DecodeBehind(t, s, mode, ps);
    n := prefixSize + size;
    action, pos := TurnOnInstruction(c, code, p, decoded, what, n, result, nextPos, room);
  }

  lemma {:induction false} AfterNothing(r: Returned)
    ensures After([], r) == r
  {
  }

  /** What one turn makes of a run that returns `whole`, with `es` used before the turn and `es'` after it. */
  ghost predicate Continues(step: Step, c: Config, code: Code, whole: Returned, action: Action, q: nat,
                            es': seq<DInst>, left: nat)
    requires Fits(step) && c.Proper()
  {
    match action
    case GiveUp => whole == Returned(OutOfRoom, es')
    case UseAndStop => whole == Returned(Finished, es')
    case _ => q <= |code.bytes| && whole == After(es', Run(step, c, code, q, left))
  }

  lemma {:induction false} TurnContinues(step: Step, c: Config, code: Code, p: nat, room: nat, es: seq<DInst>,
                                         whole: Returned, chunk: Chunk, action: Action, q: nat, es': seq<DInst>,
                                         left: nat)
    requires Fits(step) && c.Proper() && p < |code.bytes| && whole == After(es, Run(step, c, code, p, room))
    requires chunk == ChunkAt(step, code, p) && action == ActionOn(c, chunk, code, p, room)
    requires action != GiveUp ==> q == p + chunk.n
    requires es' == es + UsedBy(c, action, chunk, code, p)
    requires left + |es'| == room + |es|
    ensures Continues(step, c, code, whole, action, q, es', left)
    ensures action != GiveUp ==> p < q
  {
  }

  /** One turn, and what it makes of the run: `whole` is what the whole run returns. */
  method TurnRun(t: Tables, mode: Mode, c: Config, code: Code, p: nat, result: array<Slot>, nextPos: nat, room: nat,
                 ghost step: Step, ghost es: seq<DInst>, ghost whole: Returned, ghost end: nat)
    returns (going: bool, outcome: Outcome, q: nat, pos: nat, left: nat, ghost es': seq<DInst>)
    requires t.WellFormed() && c.Proper() && p < |code.bytes| && nextPos + room == end <= result.Length
    requires step == Steps(t, mode) && Fits(step)
    requires result[..nextPos] == Raws(es) && After(es, Run(step, c, code, p, room)) == whole
    modifies result
    ensures pos + left == end && result[end..] == old(result[end..]) && result[..pos] == Raws(es')
    ensures if going then p < q <= |code.bytes| && whole == After(es', Run(step, c, code, q, left))
            else whole == Returned(outcome, es')
  {
    var action, n;
    ghost var chunk;
    action, n, pos, chunk := Turn(t, mode, c, code, p, result, nextPos, room);
    assert chunk == ChunkAt(step, code, p);
    ghost var more := UsedBy(c, action, chunk, code, p);
    es' := es + more;
    RawsOfBoth(es, more);
    assert result[..pos] == Raws(es') && |result[..pos]| == pos && |Raws(es)| == nextPos;
    left := room - (pos - nextPos);
    q := p + n;
    TurnContinues(step, c, code, p, room, es, whole, chunk, action, q, es', left);
    going := action == Skip || action == Use;
    outcome := if action == GiveUp then OutOfRoom else Finished;
  }

  lemma {:induction false} RunEnds(step: Step, c: Config, code: Code, room: nat, es: seq<DInst>)
    requires Fits(step) && c.Proper()
    ensures After(es, Run(step, c, code, |code.bytes|, room)) == Returned(Finished, es)
  {
  }

  /**
   decode_internal: the entries used and the outcome are those of the run, and nothing at or past the capacity is
   written.  Without the filter it succeeds exactly if there is an element for each entry of the plain result up to the
   first to stop on.
   */
  method DecodeInternal(t: Tables, mode: Mode, c: Config, code: Code, result: array<Slot>, maxResultCount: nat)
    returns (outcome: Outcome, used: nat)
    requires t.WellFormed() && c.Proper() && maxResultCount <= result.Length
    modifies result
    ensures Fits(Steps(t, mode)) && used <= maxResultCount
    ensures var r := Run(Steps(t, mode), c, code, 0, maxResultCount);
            outcome == r.outcome && result[..used] == Raws(r.used)
    ensures !c.fcOnly ==>
              var wanted := UpToStop(c, Plain(Steps(t, mode), c.mask, code, 0));
              && (outcome == Finished <==> |wanted| <= maxResultCount)
              && (outcome == Finished ==> result[..used] == Raws(wanted))
    ensures result[maxResultCount..] == old(result[maxResultCount..])
  {
    StepsFit(t, mode);
    ghost var step := Steps(t, mode);
    if !c.fcOnly {
      FinishesWithRoom(step, c, code, 0, maxResultCount);
    }
    used := 0;
    var p, room := 0, maxResultCount;
    ghost var es: seq<DInst> := [];
    ghost var whole := Run(step, c, code, 0, maxResultCount);
    AfterNothing(whole);
    while p < |code.bytes|
      invariant p <= |code.bytes| && used + room == maxResultCount
      invariant result[..used] == Raws(es) && After(es, Run(step, c, code, p, room)) == whole
      invariant result[maxResultCount..] == old(result[maxResultCount..])
      decreases |code.bytes| - p
    {
      var going;
      going, outcome, p, used, room, es :=
        TurnRun(t, mode, c, code, p, result, used, room, step, es, whole, maxResultCount);
      if !going {
        return;
      }
    }
    RunEnds(step, c, code, room, es);
    outcome := Finished;
  }
}
