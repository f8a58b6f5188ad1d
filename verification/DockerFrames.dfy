/**
  The multiplexed log stream of the Docker Engine API (ContainerAttach, "Stream format"): each
  frame is an 8-byte header, whose last four bytes are the payload size in big-endian order,
  followed by the payload. The worker strips the headers and keeps the payloads.
 */
module DockerFrames {

  newtype Byte = x: int | 0 <= x < 256

  const SIZE_LIMIT: nat := 0x1_0000_0000

  /** A frame: the stream type, the three bytes after it, and the payload. */
  datatype Frame = Frame(kind: Byte, pad: (Byte, Byte, Byte), payload: seq<Byte>)

  predicate Sendable(frames: seq<Frame>) {
    forall i :: 0 <= i < |frames| ==> |frames[i].payload| < SIZE_LIMIT
  }

  function Size(b4: Byte, b5: Byte, b6: Byte, b7: Byte): (n: nat)
    ensures n < SIZE_LIMIT
  {
    b4 as int * 0x100_0000 + b5 as int * 0x1_0000 + b6 as int * 0x100 + b7 as int
  }

  function Header(f: Frame): (h: seq<Byte>)
    requires |f.payload| < SIZE_LIMIT
    ensures |h| == 8 && h[0] == f.kind && (h[1], h[2], h[3]) == f.pad
    ensures h[4] as int * 0x100_0000 + h[5] as int * 0x1_0000 + h[6] as int * 0x100 + h[7] as int == |f.payload|
  {
    var n := |f.payload|;
    var high, low := n / 0x1_0000, n % 0x1_0000;
    [f.kind, f.pad.0, f.pad.1, f.pad.2,
     (high / 0x100) as Byte, (high % 0x100) as Byte, (low / 0x100) as Byte, (low % 0x100) as Byte]
  }

  /** The stream that carries the frames. */
  function Encode(frames: seq<Frame>): seq<Byte>
    requires Sendable(frames)
  {
    if frames == [] then [] else Header(frames[0]) + frames[0].payload + Encode(frames[1..])
  }

  function Payloads(frames: seq<Frame>): seq<Byte> {
    if frames == [] then [] else frames[0].payload + Payloads(frames[1..])
  }

  /** How many payload bytes are among the first `k` bytes of the stream. */
  function Arrived(frames: seq<Frame>, k: nat): (n: nat)
    ensures n <= |Payloads(frames)|
  {
    if frames == [] || k < 8 then 0
    else if k - 8 <= |frames[0].payload| then k - 8
    else |frames[0].payload| + Arrived(frames[1..], k - 8 - |frames[0].payload|)
  }

  // ---------------------------------------------------------------------------
  // Stripping
  // ---------------------------------------------------------------------------

  function Strip(b: seq<Byte>): seq<Byte> {
    if |b| < 8 then []
    else
      var declared := Size(b[4], b[5], b[6], b[7]);
      var size := if declared > |b| - 8 then |b| - 8 else declared;
      b[8..8 + size] + Strip(b[8 + size..])
  }

  method StripDockerHeaders(input: seq<Byte>) returns (out: seq<Byte>)
    ensures out == Strip(input)
  {
    var b := input;
    out := [];
    while |b| >= 8
      invariant out + Strip(b) == Strip(input)
      decreases |b|
    {
      var frameSize := Size(b[4], b[5], b[6], b[7]);
      ghost var rest := b[8..];
      ghost var was := b;
      b := b[8..];
      if frameSize > |b| {
        frameSize := |b|;
      }
      out := out + b[..frameSize];
      b := b[frameSize..];
      assert was[8..8 + frameSize] == rest[..frameSize] && was[8 + frameSize..] == b;
    }
  }

  // ---------------------------------------------------------------------------
  // What is stripped from a framed stream, and from any truncation of it
  // ---------------------------------------------------------------------------

  /** The first frame of a stream, cut anywhere behind its header. */
  lemma HeaderIsRead(f: Frame, tail: seq<Byte>, k: nat)
    requires |f.payload| < SIZE_LIMIT && 8 <= k <= 8 + |f.payload| + |tail|
    ensures var b := (Header(f) + f.payload + tail)[..k];
            && |b| == k && Size(b[4], b[5], b[6], b[7]) == |f.payload|
            && (k - 8 <= |f.payload| ==> b[8..] == f.payload[..k - 8])
            && (k - 8 > |f.payload| ==>
                  b[8..8 + |f.payload|] == f.payload && b[8 + |f.payload|..] == tail[..k - 8 - |f.payload|])
  {
    var b, h := (Header(f) + f.payload + tail)[..k], Header(f);
    assert b[4] == h[4] && b[5] == h[5] && b[6] == h[6] && b[7] == h[7];
  }

  lemma StripCutFrame(b: seq<Byte>)
    requires |b| >= 8 && |b| - 8 <= Size(b[4], b[5], b[6], b[7])
    ensures Strip(b) == b[8..]
  {
    assert b[|b|..] == [] && b[8..|b|] == b[8..];
    assert Strip([]) == [] && b[8..] + [] == b[8..];
  }

  lemma {:induction false} StripOfTruncation(frames: seq<Frame>, k: nat)
    requires Sendable(frames) && k <= |Encode(frames)|
    ensures Strip(Encode(frames)[..k]) == Payloads(frames)[..Arrived(frames, k)]
    decreases |frames|
  {
    if frames != [] && k >= 8 {
      var f, rest := frames[0], frames[1..];
      var n := |f.payload|;
      var b := Encode(frames)[..k];
      HeaderIsRead(f, Encode(rest), k);
      if k - 8 <= n {
        StripCutFrame(b);
        assert Payloads(frames)[..k - 8] == f.payload[..k - 8];
      } else {
        StripOfTruncation(rest, k - 8 - n);
        PrefixOfBoth(f.payload, Payloads(rest), Arrived(rest, k - 8 - n));
      }
    }
  }

  lemma PrefixOfBoth(a: seq<Byte>, b: seq<Byte>, n: nat)
    requires n <= |b|
    ensures (a + b)[..|a| + n] == a + b[..n]
  {
  }

  lemma {:induction false} AllArrived(frames: seq<Frame>)
    requires Sendable(frames)
    ensures Arrived(frames, |Encode(frames)|) == |Payloads(frames)|
    decreases |frames|
  {
    if frames != [] {
      AllArrived(frames[1..]);
    }
  }

  /** Stripping a framed stream gives the payloads, one after the other. */
  lemma FramesRoundTrip(frames: seq<Frame>)
    requires Sendable(frames)
    ensures Strip(Encode(frames)) == Payloads(frames)
  {
    StripOfTruncation(frames, |Encode(frames)|);
    AllArrived(frames);
    assert Encode(frames)[..|Encode(frames)|] == Encode(frames);
  }

  /** Stripping a truncated stream gives a prefix of the payloads. */
  lemma TruncationIsPrefix(frames: seq<Frame>, k: nat)
    requires Sendable(frames) && k <= |Encode(frames)|
    ensures Strip(Encode(frames)[..k]) <= Payloads(frames)
  {
    StripOfTruncation(frames, k);
  }

  function Zeros(n: nat): seq<Byte> {
    seq(n, _ => 0 as Byte)
  }

  /** The frame that eight bytes announce, with a given payload. */
  function Announced(h: seq<Byte>, payload: seq<Byte>): Frame
    requires |h| == 8
  {
    Frame(h[0], (h[1], h[2], h[3]), payload)
  }

  lemma OneFrame(h: seq<Byte>, payload: seq<Byte>, more: seq<Frame>)
    requires |h| == 8 && |payload| == Size(h[4], h[5], h[6], h[7]) && Sendable(more)
    ensures Sendable([Announced(h, payload)] + more)
    ensures Encode([Announced(h, payload)] + more) == h + payload + Encode(more)
  {
    HeaderOf(h, Announced(h, payload));
    assert ([Announced(h, payload)] + more)[1..] == more;
  }

  /**
    Every byte string at all is a truncation of some framed stream, so the two lemmas above say
    what stripping does to any input.
   */
  lemma {:induction false} EveryInputIsATruncation(b: seq<Byte>) returns (frames: seq<Frame>)
    ensures Sendable(frames) && b <= Encode(frames)
    decreases |b|
  {
    var h := if |b| < 8 then b + Zeros(8 - |b|) else b[..8];
    var rest := if |b| < 8 then [] else b[8..];
    var size := Size(h[4], h[5], h[6], h[7]);
    assert b <= h + rest;
    if size < |rest| {
      var more := EveryInputIsATruncation(rest[size..]);
      OneFrame(h, rest[..size], more);
      frames := [Announced(h, rest[..size])] + more;
      assert h + rest == h + rest[..size] + rest[size..];
    } else {
      OneFrame(h, rest + Zeros(size - |rest|), []);
      frames := [Announced(h, rest + Zeros(size - |rest|))] + [];
      assert h + rest <= h + (rest + Zeros(size - |rest|)) + [];
    }
  }

  /** A size is written in base 256 in one way only. */
  lemma HeaderOf(h: seq<Byte>, f: Frame)
    requires |h| == 8 && f.kind == h[0] && f.pad == (h[1], h[2], h[3])
    requires |f.payload| == Size(h[4], h[5], h[6], h[7])
    ensures Header(f) == h
  {
    var g := Header(f);
    SizeIsInjective(h[4], h[5], h[6], h[7], g[4], g[5], g[6], g[7]);
  }

  lemma SizeIsInjective(
    a4: Byte, a5: Byte, a6: Byte, a7: Byte, b4: Byte, b5: Byte, b6: Byte, b7: Byte)
    requires Size(a4, a5, a6, a7) == Size(b4, b5, b6, b7)
    ensures (a4, a5, a6, a7) == (b4, b5, b6, b7)
  {
    LastDigit(a4 as int * 0x1_0000 + a5 as int * 0x100 + a6 as int, a7,
              b4 as int * 0x1_0000 + b5 as int * 0x100 + b6 as int, b7);
    LastDigit(a4 as int * 0x100 + a5 as int, a6, b4 as int * 0x100 + b5 as int, b6);
    LastDigit(a4 as int, a5, b4 as int, b5);
  }

  lemma LastDigit(x: int, d: Byte, y: int, e: Byte)
    requires x * 0x100 + d as int == y * 0x100 + e as int
    ensures x == y && d == e
  {
    assert (x - y) * 0x100 == e as int - d as int;
  }
}
