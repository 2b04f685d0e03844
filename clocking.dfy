/** The stream hardware-parameter callback of the UDRC machine driver: it sets
    the codec DAI's system clock, then the CPU DAI's bit-clock ratio, and stops
    at the first negative status. The two peer DAIs are oracles: the status each
    of them returns is an input, and every directive issued to them is recorded. */
module ClockNegotiation {
  import opened Kernel

  /** Clock id passed to the codec DAI. */
  const SysclkId: nat := 0
  /** The board's fixed master-clock rate, in Hz. */
  const MasterClockHz: nat := 25_000_000

  /** `SND_SOC_CLOCK_IN` / `SND_SOC_CLOCK_OUT`. */
  datatype ClockDirection = ClockIn | ClockOut

  /** The two peers of the single DAI link. */
  datatype DaiRole = CodecDai | CpuDai

  /** A configuration call issued to a peer DAI. */
  datatype Directive =
    | SetSysclk(dai: DaiRole, clkId: nat, freq: nat, dir: ClockDirection)
    | SetBclkRatio(dai: DaiRole, ratio: nat)

  /** The directive the first step issues: codec sysclk, id 0, 25 MHz, clock in. */
  const CodecSysclk: Directive := SetSysclk(CodecDai, SysclkId, MasterClockHz, ClockIn)

  /** What the codec's `set_sysclk` and the CPU DAI's `set_bclk_ratio` return
      when called. */
  datatype PeerReplies = PeerReplies(sysclk: int32, bclkRatio: int32)

  /** One negotiation: the status returned to the framework and the directives
      issued, in order. */
  datatype Negotiation = Negotiation(ret: int32, issued: seq<Directive>)

  /** The ratio handed to the CPU DAI for a physical sample width: the width is
      stored in an `unsigned int` and doubled in unsigned arithmetic, unchecked. */
  function BclkRatio(width: int32): (ratio: nat)
    ensures ratio < UintModulus
    ensures width >= 0 ==> ratio == 2 * width as int
    ensures width < 0 ==> ratio == 2 * width as int + UintModulus
  {
    (ToUnsigned(width) * 2) % UintModulus
  }

  /** The specification of one hardware-parameter callback. */
  function Negotiate(width: int32, replies: PeerReplies): (n: Negotiation)
    // The codec sysclk directive always comes first; the bclk ratio is
    // issued second, and only when the sysclk step did not fail.
    ensures 1 <= |n.issued| <= 2 && n.issued[0] == CodecSysclk
    ensures |n.issued| == 2 <==> replies.sysclk >= 0
    ensures |n.issued| == 2 ==> n.issued[1] == SetBclkRatio(CpuDai, BclkRatio(width))
    // The first negative status is returned unchanged; otherwise 0.
    ensures replies.sysclk < 0 ==> n.ret == replies.sysclk
    ensures replies.sysclk >= 0 && replies.bclkRatio < 0 ==> n.ret == replies.bclkRatio
    ensures replies.sysclk >= 0 && replies.bclkRatio >= 0 ==> n.ret == 0
    ensures n.ret < 0 <==> replies.sysclk < 0 || replies.bclkRatio < 0
  {
    var ratio := SetBclkRatio(CpuDai, BclkRatio(width));
    if replies.sysclk < 0 then Negotiation(replies.sysclk, [CodecSysclk])
    else if replies.bclkRatio < 0 then Negotiation(replies.bclkRatio, [CodecSysclk, ratio])
    else Negotiation(0, [CodecSysclk, ratio])
  }

  /** Only the two directives of the callback are ever sent to the peers. */
  predicate IsPeerDirective(d: Directive) {
    d == CodecSysclk || (d.SetBclkRatio? && d.dai == CpuDai)
  }

  /** A log of peer directives in which every bit-clock-ratio directive comes
      immediately after the codec sysclk directive. */
  ghost predicate ClockOrdered(log: seq<Directive>) {
    && (forall i | 0 <= i < |log| :: IsPeerDirective(log[i]))
    && (forall i | 0 <= i < |log| && log[i].SetBclkRatio? :: 0 < i && log[i - 1] == CodecSysclk)
  }

  /** One more negotiation keeps a log clock-ordered. */
  lemma ClockOrderedAppend(log: seq<Directive>, width: int32, replies: PeerReplies)
    requires ClockOrdered(log)
    ensures ClockOrdered(log + Negotiate(width, replies).issued)
  {
  }

  /** One call of the callback, as the framework makes it. */
  datatype HwParamsCall = HwParamsCall(width: int32, replies: PeerReplies)

  /** Everything the peers see over a sequence of callback invocations. */
  function SessionLog(calls: seq<HwParamsCall>): (log: seq<Directive>)
    ensures |calls| <= |log| <= 2 * |calls|
  {
    if |calls| == 0 then []
    else
      var last := calls[|calls| - 1];
      SessionLog(calls[..|calls| - 1]) + Negotiate(last.width, last.replies).issued
  }

  /** However many times the framework re-negotiates, the peers never see a
      bit-clock ratio that was not immediately preceded by the codec sysclk. */
  lemma {:induction false} SessionClockOrdered(calls: seq<HwParamsCall>)
    ensures ClockOrdered(SessionLog(calls))
  {
    if |calls| > 0 {
      var last := calls[|calls| - 1];
      SessionClockOrdered(calls[..|calls| - 1]);
      ClockOrderedAppend(SessionLog(calls[..|calls| - 1]), last.width, last.replies);
    }
  }

  /** One more invocation extends the session log by that invocation's
      directives, and the extended log is still clock-ordered. */
  lemma SessionStep(calls: seq<HwParamsCall>, call: HwParamsCall)
    ensures SessionLog(calls + [call]) == SessionLog(calls) + Negotiate(call.width, call.replies).issued
    ensures ClockOrdered(SessionLog(calls + [call]))
  {
    assert (calls + [call])[..|calls|] == calls;
    SessionClockOrdered(calls + [call]);
  }

  /** The two peer DAIs, with a ghost record of every callback invocation and
      of every directive issued to them. */
  class DaiPeers {
    ghost var history: seq<HwParamsCall>
    ghost var issued: seq<Directive>

    /** The peers have seen exactly what the recorded invocations issue,
        and so (by `SessionClockOrdered`) a clock-ordered log. */
    ghost predicate Valid()
      reads this
    {
      issued == SessionLog(history)
    }

    constructor ()
      ensures Valid() && history == [] && issued == []
    {
      history := [];
      issued := [];
    }

    /** The hardware-parameter callback. `width` is what the physical-width
        query returns for the requested format. */
    method HwParams(width: int32, replies: PeerReplies) returns (ret: int32)
      requires Valid()
      modifies this
      ensures Valid() && ClockOrdered(issued)
      ensures history == old(history) + [HwParamsCall(width, replies)]
      ensures issued == old(issued) + Negotiate(width, replies).issued
      ensures ret == Negotiate(width, replies).ret
    {
      SessionStep(history, HwParamsCall(width, replies));
      history := history + [HwParamsCall(width, replies)];
      var sampleBits := ToUnsigned(width);

      issued := issued + [CodecSysclk];
      ret := replies.sysclk;
      if ret < 0 {
        return;
      }

      issued := issued + [SetBclkRatio(CpuDai, (sampleBits * 2) % UintModulus)];
      ret := replies.bclkRatio;
      if ret < 0 {
        return;
      }

      ret := 0;
    }
  }
}
