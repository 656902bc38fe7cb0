/**
 Whole listings: if a step takes each line of a listing for what it says, whatever follows, then so does a whole decode,
 line by line.  Nothing here depends on how a line is decoded.
 */
module Listings {
  import opened X86
  import opened DecodeRun

  /** A line of a listing: the bytes of an instruction, and what it is. */
  datatype Line = Line(bytes: seq<Byte>, info: Info)

  /** Whatever follows the line, the step takes it and no more. */
  ghost predicate Takes(step: Step, line: Line) {
    line.bytes != []
    && forall rest {:trigger step(line.bytes + rest)} :: step(line.bytes + rest) == One(Known(line.info), |line.bytes|)
  }

  ghost predicate TakesAll(step: Step, lines: seq<Line>) { forall i | 0 <= i < |lines| :: Takes(step, lines[i]) }

  function BytesOf(lines: seq<Line>): seq<Byte> { if lines == [] then [] else lines[0].bytes + BytesOf(lines[1..]) }

  /** The entries of a listing at `p`: each line at its address, with its size. */
  function EntriesOf(lines: seq<Line>, code: Code, mask: Mask, p: nat): (es: seq<DInst>)
    ensures |es| == |lines|
  {
    if lines == [] then []
    else
      [DInst(mask(code.offset + p), |lines[0].bytes|, Known(lines[0].info))]
      + EntriesOf(lines[1..], code, mask, p + |lines[0].bytes|)
  }

  /** The listing stands at `p`, up to `end`. */
  ghost predicate StandsAt(lines: seq<Line>, code: Code, p: nat, end: nat) {
    p <= end <= |code.bytes| && code.bytes[p..end] == BytesOf(lines)
  }

  lemma {:induction false} FirstLine(step: Step, lines: seq<Line>, code: Code, p: nat, q: nat, end: nat)
    requires Fits(step) && lines != [] && TakesAll(step, lines) && StandsAt(lines, code, p, end)
    requires q == p + |lines[0].bytes|
    ensures p < q <= end && StandsAt(lines[1..], code, q, end) && TakesAll(step, lines[1..])
    ensures ChunkAt(step, code, p) == One(Known(lines[0].info), |lines[0].bytes|)
  {
    var a, s := lines[0].bytes, code.bytes;
    assert Takes(step, lines[0]);
    assert s[p..end] == a + BytesOf(lines[1..]);
    assert s[q..end] == s[p..end][|a|..];
    assert s[p..q] == s[p..end][..|a|];
    assert s[p..] == s[p..q] + s[q..];
  }

  function EntryOf(line: Line, code: Code, mask: Mask, p: nat): DInst {
    DInst(mask(code.offset + p), |line.bytes|, Known(line.info))
  }

  lemma {:induction false} PlainOfOne(step: Step, code: Code, mask: Mask, p: nat, line: Line, q: nat)
    requires Fits(step) && p < |code.bytes| && ChunkAt(step, code, p) == One(Known(line.info), |line.bytes|)
    requires q == p + |line.bytes|
    ensures Plain(step, mask, code, p) == [EntryOf(line, code, mask, p)] + Plain(step, mask, code, q)
  {
  }

  lemma {:induction false} EntriesOfMore(lines: seq<Line>, code: Code, mask: Mask, p: nat, q: nat)
    requires lines != [] && q == p + |lines[0].bytes|
    ensures EntriesOf(lines, code, mask, p) == [EntryOf(lines[0], code, mask, p)] + EntriesOf(lines[1..], code, mask, q)
  {
  }

  /**
   The plain result of a listing with anything behind it is the lines of the listing, each at its address, and the plain
   result of the rest.
   */
  lemma {:induction false} ListingIsDecoded(step: Step, lines: seq<Line>, code: Code, mask: Mask, p: nat, end: nat)
    requires Fits(step) && TakesAll(step, lines) && StandsAt(lines, code, p, end)
    ensures Plain(step, mask, code, p) == EntriesOf(lines, code, mask, p) + Plain(step, mask, code, end)
    decreases |lines|
  {
    if lines == [] {
      assert [] + Plain(step, mask, code, p) == Plain(step, mask, code, p);
    } else {
      var q := p + |lines[0].bytes|;
      FirstLine(step, lines, code, p, q, end);
      ListingIsDecoded(step, lines[1..], code, mask, q, end);
      PlainOfOne(step, code, mask, p, lines[0], q);
      EntriesOfMore(lines, code, mask, p, q);
      Regroup([EntryOf(lines[0], code, mask, p)], EntriesOf(lines[1..], code, mask, q), Plain(step, mask, code, end));
    }
  }

  lemma {:induction false} AfterBoth(a: seq<DInst>, b: seq<DInst>, r: Returned)
    ensures After(a, After(b, r)) == After(a + b, r)
  {
    Regroup(a, b, r.used);
  }

  lemma {:induction false} RunOfOne(step: Step, c: Config, code: Code, p: nat, room: nat, line: Line, q: nat,
                                    more: nat)
    requires Fits(step) && c.Proper() && !c.fcOnly && c.stops == {} && room == more + 1 && p < |code.bytes|
    requires ChunkAt(step, code, p) == One(Known(line.info), |line.bytes|) && q == p + |line.bytes|
    ensures Run(step, c, code, p, room)
            == After([EntryOf(line, code, c.mask, p)], Run(step, c, code, q, more))
  {
  }

  /** A run with no filter and nothing to stop on uses one element for each line, if there is room for all. */
  lemma {:induction false} ListingIsUsed(step: Step, lines: seq<Line>, code: Code, c: Config, p: nat, end: nat,
                                         room: nat, left: nat)
    requires Fits(step) && c.Proper() && !c.fcOnly && c.stops == {} && |lines| + left == room
    requires TakesAll(step, lines) && StandsAt(lines, code, p, end)
    ensures Run(step, c, code, p, room) == After(EntriesOf(lines, code, c.mask, p), Run(step, c, code, end, left))
    decreases |lines|
  {
    var rest := Run(step, c, code, end, left);
    if lines == [] {
      assert After([], rest) == rest;
    } else {
      var q, more := p + |lines[0].bytes|, room - 1;
      FirstLine(step, lines, code, p, q, end);
      RunOfOne(step, c, code, p, room, lines[0], q, more);
      ListingIsUsed(step, lines[1..], code, c, q, end, more, left);
      EntriesOfMore(lines, code, c.mask, p, q);
      AfterBoth([EntryOf(lines[0], code, c.mask, p)], EntriesOf(lines[1..], code, c.mask, q), rest);
    }
  }

  /** Entry `i` of a listing: its line, its size, and its address, which is that of the bytes before it. */
  lemma {:induction false} EntryAt(lines: seq<Line>, code: Code, mask: Mask, p: nat, i: nat)
    requires i < |lines|
    ensures EntriesOf(lines, code, mask, p)[i]
            == DInst(mask(code.offset + p + |BytesOf(lines[..i])|), |lines[i].bytes|, Known(lines[i].info))
  {
    if i > 0 {
      EntryAt(lines[1..], code, mask, p + |lines[0].bytes|, i - 1);
      assert lines[..i][1..] == lines[1..][..i - 1];
    } else {
      assert lines[..0] == [];
    }
  }

  /** The bytes of the first `i + 1` lines are those of the first `i` and of the next. */
  lemma {:induction false} BytesOfMore(lines: seq<Line>, i: nat)
    requires i < |lines|
    ensures BytesOf(lines[..i + 1]) == BytesOf(lines[..i]) + lines[i].bytes
  {
    if i > 0 {
      BytesOfMore(lines[1..], i - 1);
      assert lines[..i + 1][1..] == lines[1..][..i] && lines[..i][1..] == lines[1..][..i - 1];
    } else {
      assert lines[..1][1..] == [] && lines[..0] == [];
    }
  }

  /** The addresses of a listing are those noted beside it, if each is the one before and the size of its line. */
  lemma {:induction false} AddressesAre(lines: seq<Line>, addresses: seq<nat>, i: nat)
    requires |lines| == |addresses| && i < |lines|
    requires forall j | 0 <= j < |lines| - 1 :: addresses[j + 1] == addresses[j] + |lines[j].bytes|
    ensures addresses[i] == addresses[0] + |BytesOf(lines[..i])|
  {
    if i > 0 {
      AddressesAre(lines, addresses, i - 1);
      BytesOfMore(lines, i - 1);
      assert addresses[(i - 1) + 1] == addresses[i - 1] + |lines[i - 1].bytes|;
    } else {
      assert lines[..0] == [];
    }
  }
}
