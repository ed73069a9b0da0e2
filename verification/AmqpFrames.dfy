// How src/amqp/amqp_client.c cuts what it received into frames.
module AmqpFrames {
  import opened Bytes
  import opened Splitting
  import opened TlvFactory
  import AmqpTransfers

  // The rounds of the loop from position i. The length of a next frame is read
  // even behind the last one, and then not used.
  function SplitFrom(buf: Buffer, i: nat): Split
    requires i <= |buf|
    decreases |buf| - i
  {
    if i == |buf| then Frames([])
    else if i + 4 > |buf| then Broken
    else
      var length := GetInt(buf, i);
      if length <= 0 || i + length > |buf| then Broken
      else Prepend([buf[i..i + length]], SplitFrom(buf, i + length))
  }

  predicate ProtocolFirst(buf: Buffer) {
    |buf| >= 4 && GetInt(buf, 0) == AmqpTransfers.PROTOCOL_WORD
  }

  // amqp_data_received. What follows a protocol header is not cut further.
  function SplitAll(buf: Buffer): Split {
    if |buf| < 4 then Broken
    else if !ProtocolFirst(buf) then SplitFrom(buf, 0)
    else if |buf| < 8 then Broken
    else if (buf[4] == 0 || buf[4] == 3) && buf[5..8] == [1, 0, 0] && |buf| > 8 then Frames([buf[..8], buf[8..]])
    else Frames([buf])
  }

  method DataReceived(buf: Buffer) returns (processed: seq<Buffer>, ok: bool)
    ensures ok <==> SplitAll(buf).Frames?
    ensures ok ==> SplitAll(buf) == Frames(processed)
  {
    processed, ok := [], false;
    if |buf| < 4 {
      return;
    }
    var i, length := 0, GetInt(buf, 0);
    if length == AmqpTransfers.PROTOCOL_WORD {
      if |buf| < 8 {
        return;
      }
      var id, major, minor, revision := buf[4], buf[5], buf[6], buf[7];
      assert buf[5..8] == [major, minor, revision];
      if (id == 0 || id == 3) && major == 1 && minor == 0 && revision == 0 && |buf| - 8 > 0 {
        processed := [buf[..8]];
        processed := processed + [buf[8..]];
      } else {
        processed := [buf];
      }
      return processed, true;
    }
    PrependNothing(SplitFrom(buf, 0));
    while i < |buf|
      invariant 0 <= i <= |buf| && !ProtocolFirst(buf)
      invariant i < |buf| && i + 4 <= |buf| ==> length == GetInt(buf, i)
      invariant SplitFrom(buf, 0) == Prepend(processed, SplitFrom(buf, i))
      decreases |buf| - i
    {
      if i + 4 > |buf| || length <= 0 || i + length > |buf| {
        return;
      }
      PrependOne(processed, buf[i..i + length], SplitFrom(buf, i + length));
      processed := processed + [buf[i..i + length]];
      i := i + length;
      length := if i + 4 <= |buf| then GetInt(buf, i) else 0;
    }
    assert processed + [] == processed;
    return processed, true;
  }

  // ----- The frames of a stream -----

  // A frame that starts with its own length.
  predicate Prefixed(f: Buffer) {
    |f| >= 4 && GetInt(f, 0) == |f|
  }

  lemma SameInt(a: Buffer, i: nat, b: Buffer, j: nat)
    requires i + 4 <= |a| && j + 4 <= |b| && a[i..i + 4] == b[j..j + 4]
    ensures GetInt(a, i) == GetInt(b, j)
  {
    var s, t := a[i..i + 4], b[j..j + 4];
    assert s[0] == t[0] && s[1] == t[1] && s[2] == t[2] && s[3] == t[3];
  }

  lemma {:induction false} SplitsConcat(frames: seq<Buffer>, buf: Buffer, i: nat)
    requires forall k :: 0 <= k < |frames| ==> Prefixed(frames[k])
    requires i <= |buf| && buf[i..] == Flatten(frames)
    ensures SplitFrom(buf, i) == Frames(frames)
    decreases |frames|
  {
    if frames != [] {
      var f := frames[0];
      assert buf[i..][..|f|] == f && buf[i..][|f|..] == Flatten(frames[1..]);
      assert buf[i..i + |f|] == f && buf[i + |f|..] == Flatten(frames[1..]);
      assert buf[i..i + 4] == buf[i..][0..4] == f[0..4];
      SameInt(buf, i, f, 0);
      SplitsConcat(frames[1..], buf, i + |f|);
      FirstCut(buf, i, f, frames[1..]);
      assert [f] + frames[1..] == frames;
    }
  }

  lemma FirstCut(buf: Buffer, i: nat, f: Buffer, rest: seq<Buffer>)
    requires |f| >= 4 && i + |f| <= |buf| && GetInt(buf, i) == |f| && buf[i..i + |f|] == f
    requires SplitFrom(buf, i + |f|) == Frames(rest)
    ensures SplitFrom(buf, i) == Frames([f] + rest)
  {
  }

  lemma {:induction false} ConcatsSplit(buf: Buffer, i: nat)
    requires i <= |buf| && SplitFrom(buf, i).Frames?
    requires forall k :: 0 <= k < |SplitFrom(buf, i).frames| ==> |SplitFrom(buf, i).frames[k]| >= 4
    ensures Flatten(SplitFrom(buf, i).frames) == buf[i..]
    ensures forall k :: 0 <= k < |SplitFrom(buf, i).frames| ==> Prefixed(SplitFrom(buf, i).frames[k])
    decreases |buf| - i
  {
    hide Prefixed;
    if i < |buf| {
      var length, all := GetInt(buf, i), SplitFrom(buf, i).frames;
      var rest := SplitFrom(buf, i + length).frames;
      assert all == [buf[i..i + length]] + rest;
      RestOf(all, buf[i..i + length], rest);
      ConcatsSplit(buf, i + length);
      PrefixedHere(buf, i, length);
      assert buf[i..] == buf[i..i + length] + buf[i + length..];
    }
  }

  lemma RestOf(all: seq<Buffer>, f: Buffer, rest: seq<Buffer>)
    requires all == [f] + rest && forall k :: 0 <= k < |all| ==> |all[k]| >= 4
    ensures |f| >= 4 && all[1..] == rest && forall k :: 0 <= k < |rest| ==> |rest[k]| >= 4
  {
    assert all[0] == f;
    assert forall k :: 0 <= k < |rest| ==> rest[k] == all[k + 1];
  }

  lemma PrefixedHere(buf: Buffer, i: nat, length: nat)
    requires i + 4 <= |buf| && GetInt(buf, i) == length && 4 <= length && i + length <= |buf|
    ensures Prefixed(buf[i..i + length])
  {
    var f := buf[i..i + length];
    assert f[0..4] == buf[i..i + 4];
    SameInt(buf, i, f, 0);
  }

  // The loop cuts a stream into these frames if and only if they make up the
  // stream and each starts with its own length, unless the stream starts with a
  // protocol header. (A length below four makes it cut inside the next length.)
  lemma SplitsExactly(buf: Buffer, frames: seq<Buffer>)
    requires !ProtocolFirst(buf)
    ensures
      SplitAll(buf) == Frames(frames) && (forall k :: 0 <= k < |frames| ==> |frames[k]| >= 4)
      <==>
      frames != [] && Flatten(frames) == buf && (forall k :: 0 <= k < |frames| ==> Prefixed(frames[k]))
  {
    if SplitAll(buf) == Frames(frames) && (forall k :: 0 <= k < |frames| ==> |frames[k]| >= 4) {
      ConcatsSplit(buf, 0);
      assert buf[0..] == buf;
    }
    if frames != [] && Flatten(frames) == buf && (forall k :: 0 <= k < |frames| ==> Prefixed(frames[k])) {
      assert Prefixed(frames[0]);
      assert buf[0..] == buf;
      SplitsConcat(frames, buf, 0);
    }
  }

  // ----- From the sender to the receiver -----

  ghost predicate AllEncodable(ms: seq<AmqpTransfers.Message>) {
    forall k :: 0 <= k < |ms| ==> AmqpTransfers.Encodable(ms[k])
  }

  ghost predicate IsFrameOf(m: AmqpTransfers.Message, frame: Buffer) {
    AmqpTransfers.EncodeFrame(m) == AmqpTransfers.Made(frame)
  }

  ghost predicate AllSent(ms: seq<AmqpTransfers.Message>, frames: seq<Buffer>) {
    |frames| == |ms| && forall k :: 0 <= k < |ms| ==> IsFrameOf(ms[k], frames[k])
  }

  // Transfers sent one after another over a byte stream: the receiver cuts the
  // bytes into exactly the frames sent, and decodes each to its transfer if and
  // only if that one fits. Only a first frame as long as a protocol header read
  // as an integer takes the others with it.
  lemma StreamRoundTrip(ms: seq<AmqpTransfers.Message>, frames: seq<Buffer>)
    requires ms != [] && AllEncodable(ms) && AllSent(ms, frames)
    ensures SplitAll(Flatten(frames)) == Frames(frames) <==>
      |frames[0]| != AmqpTransfers.PROTOCOL_WORD || |frames| == 1
    ensures forall k :: 0 <= k < |ms| ==> (AmqpTransfers.Decodes(ms[k], frames[k]) <==> AmqpTransfers.Fits(ms[k]))
  {
    forall k | 0 <= k < |ms|
      ensures Prefixed(frames[k]) && frames[k][4] == 2
      ensures AmqpTransfers.Decodes(ms[k], frames[k]) <==> AmqpTransfers.Fits(ms[k])
    {
      OneRoundTrip(ms[k], frames[k]);
    }
    if |frames[0]| == AmqpTransfers.PROTOCOL_WORD {
      TakenForProtocol(frames);
    } else {
      NotProtocol(frames);
      SplitsExactly(Flatten(frames), frames);
    }
  }

  lemma OneRoundTrip(m: AmqpTransfers.Message, frame: Buffer)
    requires AmqpTransfers.Encodable(m) && IsFrameOf(m, frame)
    ensures Prefixed(frame) && |frame| > 8 && frame[4] == 2
    ensures AmqpTransfers.Decodes(m, frame) <==> AmqpTransfers.Fits(m)
  {
    var f := AmqpTransfers.FrameRoundTrip(m);
    assert f == frame;
  }

  lemma FirstBytes(frames: seq<Buffer>)
    requires frames != [] && Prefixed(frames[0])
    ensures |Flatten(frames)| >= 4 && GetInt(Flatten(frames), 0) == |frames[0]|
  {
    assert Flatten(frames)[0..4] == frames[0][0..4];
    SameInt(Flatten(frames), 0, frames[0], 0);
  }

  lemma NotProtocol(frames: seq<Buffer>)
    requires frames != [] && Prefixed(frames[0]) && |frames[0]| != AmqpTransfers.PROTOCOL_WORD
    ensures !ProtocolFirst(Flatten(frames))
  {
    FirstBytes(frames);
  }

  lemma TakenForProtocol(frames: seq<Buffer>)
    requires frames != [] && Prefixed(frames[0]) && |frames[0]| == AmqpTransfers.PROTOCOL_WORD && frames[0][4] == 2
    ensures SplitAll(Flatten(frames)) == Frames([Flatten(frames)])
    ensures Frames([Flatten(frames)]) == Frames(frames) <==> |frames| == 1
  {
    FirstBytes(frames);
    assert Flatten(frames)[4] == 2;
    assert |frames| == 1 ==> Flatten(frames) == frames[0] && frames == [frames[0]];
  }
}
