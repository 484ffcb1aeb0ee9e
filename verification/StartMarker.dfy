/** The automaton that waits for the start marker `1B 1B 1B 1B 01 01 01 01`. */
module StartMarker {
  import opened Bytes
  import opened Errors
  import opened Deframing
  import opened Io
  import opened IoFutures

  /** How far into the marker the automaton is after one more byte; at 8 it has stopped for good. */
  function Next(count: nat, b: byte): (next: nat)
    requires count <= 8
    ensures next <= 8
  {
    if count == 8 then 8
    else if (count < 4 && b == 0x1B) || (count >= 4 && b == 0x01) then count + 1
    else if count == 4 && b == 0x1B then count
    else 0
  }

  function Count(bs: seq<byte>): (count: nat)
    ensures count <= 8
  {
    if bs == [] then 0 else Next(Count(bs[..|bs| - 1]), bs[|bs| - 1])
  }

  lemma {:induction false} CountStep(bs: seq<byte>, i: nat)
    requires i < |bs|
    ensures Count(bs[..i + 1]) == Next(Count(bs[..i]), bs[i])
  {
    assert bs[..i + 1][..i] == bs[..i];
  }

  /** The automaton stops just after the last byte of `bs`, and not before. */
  predicate StopsAfter(bs: seq<byte>) {
    bs != [] && Count(bs) == 8 && Count(bs[..|bs| - 1]) < 8
  }

  /** `bs` ends with the first `n` bytes of the marker, met by an automaton that had counted to 4 at most. */
  predicate EndsWithMarker(bs: seq<byte>, n: nat)
    requires n <= 8
  {
    |bs| >= n && bs[|bs| - n..] == START[..n] && Count(bs[..|bs| - n]) <= 4
  }

  /** Four bytes `1B` bring the automaton to 4, unless it was past 4 before: then they are lost. */
  lemma {:induction false} FourEscapes(bs: seq<byte>)
    ensures Count(bs) == 4 <==> EndsWithMarker(bs, 4)
  {
    hide Count, Next;
    var n := |bs|;
    if n >= 4 {
      assert bs[..n] == bs;
      CountStep(bs, n - 1);
      CountStep(bs, n - 2);
      CountStep(bs, n - 3);
      CountStep(bs, n - 4);
      FourSteps(Count(bs[..n - 4]), bs[n - 4], bs[n - 3], bs[n - 2], bs[n - 1]);
      LastFour(bs);
    } else {
      CountBound(bs);
    }
  }

  lemma {:induction false} LastFour(bs: seq<byte>)
    requires |bs| >= 4
    ensures var n := |bs|;
            bs[n - 4..] == START[..4] <==> bs[n - 4] == bs[n - 3] == bs[n - 2] == bs[n - 1] == 0x1B
  {
    var n := |bs|;
    assert bs[n - 4..] == [bs[n - 4], bs[n - 3], bs[n - 2], bs[n - 1]];
    assert START[..4] == [0x1B, 0x1B, 0x1B, 0x1B];
  }

  lemma {:induction false} FourSteps(count: nat, a: byte, b: byte, c: byte, d: byte)
    requires count <= 8
    ensures Next(Next(Next(Next(count, a), b), c), d) == 4 <==> count <= 4 && a == b == c == d == 0x1B
  {
  }

  lemma {:induction false} CountBound(bs: seq<byte>)
    ensures Count(bs) <= |bs|
  {
    if bs != [] {
      CountBound(bs[..|bs| - 1]);
    }
  }

  /** Past 4, the count tells exactly how much of the marker has just been read. */
  lemma {:induction false} CountPastFour(bs: seq<byte>, k: nat)
    requires k <= 4
    requires k == 4 ==> bs == [] || Count(bs[..|bs| - 1]) < 8
    ensures Count(bs) == 4 + k <==> EndsWithMarker(bs, 4 + k)
  {
    if k == 0 {
      FourEscapes(bs);
    } else if bs == [] {
      assert Count(bs) == 0;
    } else {
      var front := bs[..|bs| - 1];
      CountPastFour(front, k - 1);
      assert Count(bs) == Next(Count(front), bs[|bs| - 1]);
      hide Count;
      if |bs| >= 4 + k {
        OneMore(bs, 4 + k);
      }
    }
  }

  lemma {:induction false} OneMore(bs: seq<byte>, n: nat)
    requires 5 <= n <= 8 && |bs| >= n
    ensures var front, m := bs[..|bs| - 1], |bs| - n;
            && front[..m] == bs[..m]
            && (bs[m..] == START[..n] <==> front[m..] == START[..n - 1] && bs[|bs| - 1] == 0x01)
  {
    var front, m := bs[..|bs| - 1], |bs| - n;
    assert bs[m..] == front[m..] + [bs[|bs| - 1]];
    assert START[..n] == START[..n - 1] + [0x01];
  }

  /**
   Exact acceptance: the automaton stops just after the last byte of `bs` if and only if the
   last eight bytes are the marker and it had counted to 4 at most before them.
   */
  lemma {:induction false} AcceptsExactly(bs: seq<byte>)
    requires bs != [] && Count(bs[..|bs| - 1]) < 8
    ensures StopsAfter(bs) <==> |bs| >= 8 && bs[|bs| - 8..] == START && Count(bs[..|bs| - 8]) <= 4
  {
    CountPastFour(bs, 4);
    assert START[..8] == START;
  }

  /** The automaton has just read the first half of a marker and `k` bytes of the second one. */
  predicate InSecondHalf(bs: seq<byte>, k: nat) {
    1 <= k <= 3 && EndsWithMarker(bs, 4 + k)
  }

  /** A marker is caught if and only if the automaton is not in the second half of another one. */
  lemma {:induction false} MarkerCaught(bs: seq<byte>)
    requires Count(bs) < 8
    ensures StopsAfter(bs + START) <==> !exists k :: InSecondHalf(bs, k)
    ensures Count(bs) <= 4 <==> !exists k :: InSecondHalf(bs, k)
  {
    hide Count, StopsAfter, InSecondHalf;
    SecondHalfCount(bs);
    FirstHalf(bs);
    SecondHalf(bs + START[..4]);
    assert bs + START[..4] + START[4..] == bs + START;
  }

  lemma {:induction false} SecondHalfCount(bs: seq<byte>)
    requires Count(bs) < 8
    ensures Count(bs) <= 4 <==> !exists k :: InSecondHalf(bs, k)
  {
    hide Count, InSecondHalf;
    forall k: nat
      ensures InSecondHalf(bs, k) <==> 1 <= k <= 3 && Count(bs) == 4 + k
    {
      InSecondHalfCount(bs, k);
    }
    if Count(bs) > 4 {
      assert InSecondHalf(bs, Count(bs) - 4);
    }
  }

  lemma {:induction false} InSecondHalfCount(bs: seq<byte>, k: nat)
    ensures InSecondHalf(bs, k) <==> 1 <= k <= 3 && Count(bs) == 4 + k
  {
    hide Count, EndsWithMarker;
    if 1 <= k <= 3 {
      CountPastFour(bs, k);
    }
  }

  lemma {:induction false} FirstHalf(bs: seq<byte>)
    requires Count(bs) < 8
    ensures Count(bs + START[..4]) == if Count(bs) <= 4 then 4 else 3
  {
    var all, n := bs + START[..4], |bs|;
    assert all[..n] == bs;
    CountStep(all, n);
    CountStep(all, n + 1);
    CountStep(all, n + 2);
    CountStep(all, n + 3);
    assert all[..n + 4] == all;
  }

  lemma {:induction false} SecondHalf(bs: seq<byte>)
    requires 3 <= Count(bs) <= 4
    ensures StopsAfter(bs + START[4..]) <==> Count(bs) == 4
  {
    var all, n := bs + START[4..], |bs|;
    assert all[..n] == bs;
    CountStep(all, n);
    CountStep(all, n + 1);
    CountStep(all, n + 2);
    CountStep(all, n + 3);
    assert all[..n + 4] == all;
  }

  /** Any byte outside the marker's alphabet makes the automaton start afresh, so the next marker is caught. */
  lemma {:induction false} CaughtAfterOtherByte(bs: seq<byte>, b: byte)
    requires Count(bs) < 8 && b != 0x1B && b != 0x01
    ensures StopsAfter(bs + [b] + START)
  {
    assert (bs + [b])[..|bs|] == bs;
    MarkerCaught(bs + [b]);
  }

  /** Any longer run of `1B` before the marker's second half is tolerated. */
  lemma {:induction false} LongRunsTolerated(bs: seq<byte>, n: nat)
    requires Count(bs) == 4
    ensures Count(bs + seq(n, _ => 0x1B)) == 4
  {
    if n == 0 {
      assert bs + seq(n, _ => 0x1B) == bs;
    } else {
      LongRunsTolerated(bs, n - 1);
      var all := bs + seq(n, _ => 0x1B);
      assert all[..|all| - 1] == bs + seq(n - 1, _ => 0x1B);
    }
  }

  /** Once the automaton has stopped, it stays there. */
  lemma {:induction false} StaysStopped(bs: seq<byte>, n: nat, m: nat)
    requires n <= m <= |bs| && Count(bs[..n]) == 8
    ensures Count(bs[..m]) == 8
    decreases m
  {
    hide Count;
    if n < m {
      StaysStopped(bs, n, m - 1);
      CountStep(bs, m - 1);
    }
  }

  /** There is only one place to stop at. */
  lemma {:induction false} StopsOnce(bs: seq<byte>, n: nat)
    requires n <= |bs| && StopsAfter(bs) && StopsAfter(bs[..n])
    ensures n == |bs|
  {
    hide Count;
    if n < |bs| {
      StaysStopped(bs, n, |bs| - 1);
    }
  }

  /** Not every marker is found: the one here follows a marker broken off after five bytes. */
  lemma {:induction false} FirstMarkerMissed()
    ensures var noise: seq<byte> := START[..5]; Count(noise) == 5 && !StopsAfter(noise + START)
  {
    var noise: seq<byte> := START[..5];
    CountStep(noise, 0);
    CountStep(noise, 1);
    CountStep(noise, 2);
    CountStep(noise, 3);
    CountStep(noise, 4);
    assert noise[..5] == noise;
    MarkerCaught(noise);
  }

  lemma {:induction false} NoneCounted(stream: seq<byte>, start: nat)
    requires start <= |stream|
    ensures Count(stream[start..start]) == 0
  {
    assert stream[start..start] == [];
  }

  lemma {:induction false} OneByteRead(stream: seq<byte>, start: nat, pos: nat)
    requires start <= pos < |stream|
    ensures var before, now := stream[start..pos], stream[start..pos + 1];
            && Count(now) == Next(Count(before), stream[pos])
            && (Count(before) < 8 && Count(now) == 8 ==> StopsAfter(now))
  {
    var now := stream[start..pos + 1];
    assert now[..|now| - 1] == stream[start..pos];
  }

  /** Reads up to and including the start marker. */
  method WaitForStartSequence(reader: Source) returns (error: Option<IoError>)
    requires reader.Valid()
    modifies reader
    ensures reader.Valid() && reader.pos >= old(reader.pos) && |reader.schedule| <= old(|reader.schedule|)
    ensures error.None? ==>
              && reader.faults == old(reader.faults)
              && StopsAfter(reader.stream[old(reader.pos)..reader.pos])
              && |reader.schedule| < old(|reader.schedule|)
    ensures error.Some? ==>
              && reader.faults == old(reader.faults) + 1 && Blames(old(reader.schedule), reader.Now(), error.value)
              && Count(reader.stream[old(reader.pos)..reader.pos]) < 8
    ensures Leads(|reader.stream|, old(reader.Now()), reader.Now())
  {
    hide Count, StopsAfter, Leads, Blames;
    LeadsNowhere(|reader.stream|, reader.Now());
    ghost var start := reader.pos;
    var count := 0;
    NoneCounted(reader.stream, start);
    while count < 8
      invariant reader.Valid() && reader.pos >= start && reader.faults == old(reader.faults)
      invariant Leads(|reader.stream|, old(reader.Now()), reader.Now())
      invariant count == Count(reader.stream[start..reader.pos])
      invariant count == 8 ==> StopsAfter(reader.stream[start..reader.pos])
      invariant |reader.schedule| <= old(|reader.schedule|)
      invariant count > 0 ==> |reader.schedule| < old(|reader.schedule|)
      decreases |reader.stream| - reader.pos
    {
      ghost var pos, now := reader.pos, reader.Now();
      var r := ReadU8(reader);
      LeadsOn(|reader.stream|, old(reader.Now()), now, reader.Now());
      if r.Error? {
        BlamesEarlier(|reader.stream|, old(reader.Now()), now, reader.Now(), r.error);
        return Some(r.error);
      }
      var byte := r.value;
      OneByteRead(reader.stream, start, pos);
      if (count < 4 && byte == 0x1B) || (count >= 4 && byte == 0x01) {
        count := count + 1;
      } else if count == 4 && byte == 0x1B {
        // stay in the current state
      } else {
        count := 0;
      }
    }
    error := None;
  }
}
