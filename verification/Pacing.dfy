/** The loop that streams mixed audio to a device: every frame is stamped, and the loop
    sleeps so that stamps run ahead of the clock, but only so far. Times in nanoseconds. */
module Pacing {
  const MS := 1_000_000
  const FRAME := 20 * MS
  const BUFFERING := 360 * MS

  /** One pass of the loop: the clock it reads, the clock when it gets to sending, and
      whether the encoder produced nothing. */
  datatype Pass = Pass(now: int, sendAt: int, empty: bool)

  /** A frame handed to the transport: its stamp, when, and the clock its pass read. */
  datatype Sent = Sent(stamp: int, at: int, readAt: int)

  /** How long a pass asks to sleep when the next stamp is `delay` ahead of the clock. */
  function Pause(delay: int): int {
    if delay < 0 then 0 else if delay < BUFFERING then 5 * MS else delay - BUFFERING
  }

  /** Stamps never lie in the past of the clock reading. */
  function Stamped(stamp: int, now: int): int { if stamp < now then now else stamp }

  /** The clock is monotone and no sleep ends early. */
  ghost predicate Timely(stamp: int, clock: int, passes: seq<Pass>)
    decreases |passes|
  {
    passes != [] ==>
      && clock <= passes[0].now
      && passes[0].now + Pause(stamp - passes[0].now) <= passes[0].sendAt
      && Timely(Stamped(stamp, passes[0].now) + FRAME, passes[0].sendAt, passes[1..])
  }

  /** The frames sent by a run of passes that starts with a given next stamp. */
  function Stream(stamp: int, passes: seq<Pass>): seq<Sent>
    decreases |passes|
  {
    if passes == [] then []
    else
      var s := Stamped(stamp, passes[0].now);
      (if passes[0].empty then [] else [Sent(s, passes[0].sendAt, passes[0].now)])
        + Stream(s + FRAME, passes[1..])
  }

  function Pauses(stamp: int, passes: seq<Pass>): seq<int>
    decreases |passes|
  {
    if passes == [] then []
    else [Pause(stamp - passes[0].now)] + Pauses(Stamped(stamp, passes[0].now) + FRAME, passes[1..])
  }

  /** What the first of the passes to come contributes. */
  lemma FirstPass(stamp: int, passes: seq<Pass>)
    requires passes != []
    ensures var s := Stamped(stamp, passes[0].now);
      && Stream(stamp, passes)
         == (if passes[0].empty then [] else [Sent(s, passes[0].sendAt, passes[0].now)]) + Stream(s + FRAME, passes[1..])
      && Pauses(stamp, passes) == [Pause(stamp - passes[0].now)] + Pauses(s + FRAME, passes[1..])
  {
  }

  /** Moving a piece from what is to come to what is done. */
  lemma Moved<X>(done: seq<X>, piece: seq<X>, rest: seq<X>)
    ensures done + (piece + rest) == done + piece + rest
  {
  }

  /** The loop, with the clock readings of its passes given. */
  method StreamAudioTo(start: int, passes: seq<Pass>) returns (sent: seq<Sent>, pauses: seq<int>)
    ensures sent == Stream(start, passes)
    ensures pauses == Pauses(start, passes)
  {
    var stamp := start;
    sent, pauses := [], [];
    for i := 0 to |passes|
      invariant Stream(start, passes) == sent + Stream(stamp, passes[i..])
      invariant Pauses(start, passes) == pauses + Pauses(stamp, passes[i..])
    {
      ghost var sent0, pauses0, stamp0 := sent, pauses, stamp;
      assert passes[i..][0] == passes[i] && passes[i..][1..] == passes[i + 1..];
      var now := passes[i].now;
      var delay := stamp - now;
      var sleep := 0;
      if delay < 0 {
        stamp := now;
      } else if delay < BUFFERING {
        sleep := 5 * MS;
      } else {
        sleep := delay - BUFFERING;
      }
      pauses := pauses + [sleep];
      var frame := if passes[i].empty then [] else [Sent(stamp, passes[i].sendAt, now)];
      sent := sent + frame;
      stamp := stamp + FRAME;
      FirstPass(stamp0, passes[i..]);
      Moved(sent0, frame, Stream(stamp, passes[i + 1..]));
      Moved(pauses0, [sleep], Pauses(stamp, passes[i + 1..]));
    }
  }

  /** The k-th frame still to come is stamped at least k frames after the next stamp. */
  lemma {:induction false} StampsGrow(stamp: int, passes: seq<Pass>, k: nat)
    requires k < |Stream(stamp, passes)|
    ensures Stream(stamp, passes)[k].stamp >= stamp + k * FRAME
    decreases |passes|
  {
    var s := Stamped(stamp, passes[0].now);
    if passes[0].empty {
      StampsGrow(s + FRAME, passes[1..], k);
    } else if k > 0 {
      StampsGrow(s + FRAME, passes[1..], k - 1);
    }
  }

  /** Stamps of sent frames are at least a frame apart. */
  lemma {:induction false} Spaced(stamp: int, passes: seq<Pass>, i: nat, j: nat)
    requires i <= j < |Stream(stamp, passes)|
    ensures Stream(stamp, passes)[j].stamp - Stream(stamp, passes)[i].stamp >= (j - i) * FRAME
    decreases |passes|
  {
    var s := Stamped(stamp, passes[0].now);
    if passes[0].empty {
      Spaced(s + FRAME, passes[1..], i, j);
    } else if i > 0 {
      Spaced(s + FRAME, passes[1..], i - 1, j - 1);
    } else if j > 0 {
      StampsGrow(s + FRAME, passes[1..], j - 1);
    }
  }

  /** A frame leaves at most the buffering time before its stamp, and is never stamped
      before the clock its pass read. */
  lemma {:induction false} LeadBounded(stamp: int, clock: int, passes: seq<Pass>, i: nat)
    requires Timely(stamp, clock, passes) && i < |Stream(stamp, passes)|
    ensures var f := Stream(stamp, passes)[i];
      f.readAt <= f.stamp <= f.at + BUFFERING && clock <= f.readAt <= f.at
    decreases |passes|
  {
    var s := Stamped(stamp, passes[0].now);
    if passes[0].empty {
      LeadBounded(s + FRAME, passes[0].sendAt, passes[1..], i);
    } else if i > 0 {
      LeadBounded(s + FRAME, passes[0].sendAt, passes[1..], i - 1);
    }
  }

  /** Frames leave one after the other: a pass reads the clock after all earlier frames left. */
  lemma {:induction false} Sequential(stamp: int, clock: int, passes: seq<Pass>, i: nat, j: nat)
    requires Timely(stamp, clock, passes) && i < j < |Stream(stamp, passes)|
    ensures Stream(stamp, passes)[i].at <= Stream(stamp, passes)[j].readAt
    decreases |passes|
  {
    var s := Stamped(stamp, passes[0].now);
    if passes[0].empty {
      Sequential(s + FRAME, passes[0].sendAt, passes[1..], i, j);
    } else if i > 0 {
      Sequential(s + FRAME, passes[0].sendAt, passes[1..], i - 1, j - 1);
    } else {
      LeadBounded(s + FRAME, passes[0].sendAt, passes[1..], j - 1);
    }
  }

  /** Over any stretch of any run: the frames of the passes from time `from` on that have
      left by time `until` number at most (until - from + 360 ms) / 20 ms + 1. */
  lemma RateBounded(stamp: int, clock: int, passes: seq<Pass>, i: nat, j: nat, from: int, until: int)
    requires Timely(stamp, clock, passes) && i <= j < |Stream(stamp, passes)|
    requires from <= Stream(stamp, passes)[i].readAt && Stream(stamp, passes)[j].at <= until
    ensures j - i + 1 <= (until - from + BUFFERING) / FRAME + 1
  {
    Spaced(stamp, passes, i, j);
    LeadBounded(stamp, clock, passes, i);
    LeadBounded(stamp, clock, passes, j);
  }

  /** The frames that leave from time `from` to time `until` number at most one more: the
      pass of the first may have read the clock, and so stamped it, long before. */
  lemma SendRateBounded(stamp: int, clock: int, passes: seq<Pass>, i: nat, j: nat, from: int, until: int)
    requires Timely(stamp, clock, passes) && i <= j < |Stream(stamp, passes)|
    requires from <= Stream(stamp, passes)[i].at && Stream(stamp, passes)[j].at <= until
    ensures j - i + 1 <= (until - from + BUFFERING) / FRAME + 2
  {
    if i < j {
      Sequential(stamp, clock, passes, i, i + 1);
      RateBounded(stamp, clock, passes, i + 1, j, from, until);
    } else {
      LeadBounded(stamp, clock, passes, i);
    }
  }

  /** n passes of a loop that catches up as fast as it may, one every 5 ms. */
  function CatchUp(n: nat, now: int): seq<Pass> {
    if n == 0 then [] else [Pass(now, now + 5_000_000, false)] + CatchUp(n - 1, now + 5_000_000)
  }

  /** Each such pass gains 15 ms, until the lead passes the buffering time by more than 5 ms. */
  lemma {:induction false} CatchingUp(n: nat, now: int, stamp: int)
    requires now <= stamp && stamp - now + 15_000_000 * n <= BUFFERING + 20_000_000
    ensures Timely(stamp, now, CatchUp(n, now)) && |Stream(stamp, CatchUp(n, now))| == n
    ensures n > 0 ==> Stream(stamp, CatchUp(n, now))[n - 1].at == now + 5_000_000 * n
  {
    if n > 0 {
      var first, rest := Pass(now, now + 5_000_000, false), CatchUp(n - 1, now + 5_000_000);
      CatchingUp(n - 1, now + 5_000_000, stamp + FRAME);
      OnePass(stamp, now, first, rest);
    }
  }

  /** One pass in front of a run. */
  lemma OnePass(stamp: int, clock: int, p: Pass, rest: seq<Pass>)
    requires !p.empty && clock <= p.now && p.now + Pause(stamp - p.now) <= p.sendAt
    requires Timely(Stamped(stamp, p.now) + FRAME, p.sendAt, rest)
    ensures Timely(stamp, clock, [p] + rest)
    ensures Stream(stamp, [p] + rest)
      == [Sent(Stamped(stamp, p.now), p.sendAt, p.now)] + Stream(Stamped(stamp, p.now) + FRAME, rest)
  {
    assert ([p] + rest)[1..] == rest;
  }

  /** And it does happen: after a pass that read the clock 990 ms before it sent, 26 frames
      leave within 120 ms, where the tighter bound allows 25. */
  lemma SendRateReached() returns (passes: seq<Pass>)
    ensures Timely(-990 * MS, -990 * MS, passes)
    ensures var sent := Stream(-990 * MS, passes);
      && |sent| == 26 && sent[0].at == 0 && sent[25].at == 120 * MS
      && |sent| == (120 * MS - 0 + BUFFERING) / FRAME + 2
  {
    passes := LateStart(24, -990 * MS);
  }

  /** A pass that read the clock at `start` and sends at 0, then n + 1 passes as fast as may be. */
  lemma LateStart(n: nat, start: int) returns (passes: seq<Pass>)
    requires 15_000_000 * n <= BUFFERING && start <= -2 * FRAME
    ensures Timely(start, start, passes)
    ensures var sent := Stream(start, passes);
      |sent| == n + 2 && sent[0].at == 0 && sent[n + 1].at == 5_000_000 * n
  {
    var first, second := Pass(start, 0, false), Pass(0, 0, false);
    CatchingUp(n, 0, FRAME);
    OnePass(start + FRAME, 0, second, CatchUp(n, 0));
    OnePass(start, start, first, [second] + CatchUp(n, 0));
    passes := [first] + ([second] + CatchUp(n, 0));
  }

  /** How long a pass sleeps: not at all when it is late, 5 ms while it builds up its lead,
      and from then on the least time that brings the lead down to the buffering time. */
  lemma PauseIs(delay: int, p: int)
    ensures delay < 0 ==> Pause(delay) == 0
    ensures 0 <= delay < 360_000_000 ==> Pause(delay) == 5_000_000
    ensures delay >= 360_000_000 ==> (delay - p <= 360_000_000 <==> p >= Pause(delay))
  {
  }

  function Later(a: int, b: int): int { if a < b then b else a }

  /** The stamp with which the i-th pass starts: every pass adds 20 ms to its stamp, which
      is the clock reading if that has come later. */
  function NextStamp(stamp: int, passes: seq<Pass>, i: nat): int
    requires i <= |passes|
    decreases i
  {
    if i == 0 then stamp else NextStamp(Later(stamp, passes[0].now) + 20_000_000, passes[1..], i - 1)
  }

  /** Over every run: pass i sleeps as `PauseIs` says for the lead it finds, and so leaves,
      on a timely run, no earlier than 5 ms after its clock reading while its lead is
      within the buffering time. */
  lemma {:induction false} PassPauses(stamp: int, clock: int, passes: seq<Pass>, i: nat)
    requires Timely(stamp, clock, passes) && i < |passes|
    ensures |Pauses(stamp, passes)| == |passes|
    ensures var lead := NextStamp(stamp, passes, i) - passes[i].now;
      && Pauses(stamp, passes)[i] == Pause(lead)
      && passes[i].sendAt >= passes[i].now + Pauses(stamp, passes)[i]
      && (0 <= lead < 360_000_000 ==> passes[i].sendAt - passes[i].now >= 5_000_000)
    decreases |passes|
  {
    var s := Stamped(stamp, passes[0].now);
    if i > 0 {
      PassPauses(s + FRAME, passes[0].sendAt, passes[1..], i - 1);
    } else {
      PausesLength(s + FRAME, passes[1..]);
    }
  }

  lemma {:induction false} PausesLength(stamp: int, passes: seq<Pass>)
    ensures |Pauses(stamp, passes)| == |passes|
    decreases |passes|
  {
    if passes != [] {
      PausesLength(Stamped(stamp, passes[0].now) + FRAME, passes[1..]);
    }
  }

  function Frames(passes: seq<Pass>): nat {
    if passes == [] then 0 else (if passes[0].empty then 0 else 1) + Frames(passes[1..])
  }

  /** Every frame, over every run: pass i, if it has a frame, sends it after those of the
      passes before, stamped with the later of its starting stamp and its clock reading. */
  lemma {:induction false} PassStamps(stamp: int, passes: seq<Pass>, i: nat)
    requires i < |passes|
    ensures |Stream(stamp, passes)| == Frames(passes) && Frames(passes[..i]) <= Frames(passes)
    ensures !passes[i].empty ==>
      var j := Frames(passes[..i]);
      j < |Stream(stamp, passes)|
      && Stream(stamp, passes)[j]
         == Sent(Later(NextStamp(stamp, passes, i), passes[i].now), passes[i].sendAt, passes[i].now)
    decreases |passes|
  {
    var s := Stamped(stamp, passes[0].now) + FRAME;
    if i > 0 {
      PassStamps(s, passes[1..], i - 1);
      assert passes[..i][1..] == passes[1..][..i - 1];
    } else if passes[1..] != [] {
      PassStamps(s, passes[1..], 0);
    }
  }

  /** A pass without a frame leaves a gap of its 20 ms: while the loop keeps ahead of the
      clock, pass i stamps start + 20 ms * i, whatever the passes before it yielded. */
  lemma {:induction false} EmptyPassesLeaveGaps(stamp: int, passes: seq<Pass>, i: nat)
    requires forall k :: 0 <= k < |passes| ==> passes[k].now <= stamp + k * FRAME
    requires i < |passes| && !passes[i].empty
    ensures var j := Frames(passes[..i]);
      && j < |Stream(stamp, passes)|
      && Stream(stamp, passes)[j] == Sent(stamp + i * FRAME, passes[i].sendAt, passes[i].now)
    decreases |passes|
  {
    assert passes[0].now <= stamp + 0 * FRAME;
    var rest := passes[1..];
    forall k | 0 <= k < |rest| ensures rest[k].now <= stamp + FRAME + k * FRAME {
      assert rest[k] == passes[k + 1] && passes[k + 1].now <= stamp + (k + 1) * FRAME;
    }
    if i > 0 {
      EmptyPassesLeaveGaps(stamp + FRAME, rest, i - 1);
      assert passes[..i][1..] == rest[..i - 1];
    }
  }

  /** A run that never falls behind stamps without gaps: frame by frame, 20 ms apart. */
  lemma {:induction false} Gapless(stamp: int, passes: seq<Pass>, i: nat)
    requires forall k :: 0 <= k < |passes| ==> passes[k].now <= stamp + k * FRAME && !passes[k].empty
    requires i < |passes|
    ensures |Stream(stamp, passes)| == |passes| && Stream(stamp, passes)[i].stamp == stamp + i * FRAME
    decreases |passes|
  {
    assert passes[0].now <= stamp + 0 * FRAME;
    var rest := passes[1..];
    forall k | 0 <= k < |rest| ensures rest[k].now <= stamp + FRAME + k * FRAME && !rest[k].empty {
      assert rest[k] == passes[k + 1] && passes[k + 1].now <= stamp + (k + 1) * FRAME;
    }
    if rest != [] {
      Gapless(stamp + FRAME, rest, if i > 0 then i - 1 else 0);
    }
  }
}
