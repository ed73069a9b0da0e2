// The incremental line splitter of src/net/dyad.c on sequences of bytes.
module DyadLines {
  import opened Bytes

  const LF: byte := 10
  const CR: byte := 13

  // A line loses one trailing carriage return.
  function Strip(raw: Buffer): Buffer {
    if raw != [] && raw[|raw| - 1] == CR then raw[..|raw| - 1] else raw
  }

  function StripAll(raws: seq<Buffer>): (lines: seq<Buffer>)
    ensures |lines| == |raws|
  {
    if raws == [] then [] else StripAll(raws[..|raws| - 1]) + [Strip(raws[|raws| - 1])]
  }

  // The newline-terminated pieces of s, without the newlines.
  function Pieces(s: Buffer): seq<Buffer>
    decreases |s|, 1
  {
    if s == [] then []
    else if s[|s| - 1] == LF then Pieces(s[..|s| - 1]) + [Unfinished(s[..|s| - 1])]
    else Pieces(s[..|s| - 1])
  }

  // What follows the last newline.
  function Unfinished(s: Buffer): Buffer
    decreases |s|, 0
  {
    if s == [] || s[|s| - 1] == LF then [] else Unfinished(s[..|s| - 1]) + [s[|s| - 1]]
  }

  function Lines(s: Buffer): seq<Buffer> {
    StripAll(Pieces(s))
  }

  // A scan of w that has looked at i bytes: the lines found, and the rest
  // begins at start.
  ghost predicate ScannedTo(w: Buffer, i: nat, start: nat, lines: seq<Buffer>) {
    start <= i <= |w| && lines == Lines(w[..i]) && w[start..i] == Unfinished(w[..i])
  }

  lemma ScanStep(w: Buffer, i: nat, start: nat, lines: seq<Buffer>)
    requires i < |w| && ScannedTo(w, i, start, lines)
    ensures w[i] == LF ==> ScannedTo(w, i + 1, i + 1, lines + [Strip(w[start..i])])
    ensures w[i] != LF ==> ScannedTo(w, i + 1, start, lines)
  {
    assert w[..i + 1][..i] == w[..i];
    assert w[start..i + 1] == w[start..i] + [w[i]];
    assert w[i + 1..i + 1] == [];
    if w[i] == LF {
      var pieces := Pieces(w[..i + 1]);
      assert pieces[..|pieces| - 1] == Pieces(w[..i]);
    }
  }

  // ----- Splitting and joining -----

  function Joined(pieces: seq<Buffer>): Buffer {
    if pieces == [] then [] else Joined(pieces[..|pieces| - 1]) + pieces[|pieces| - 1] + [LF]
  }

  lemma {:induction false} NoNewlineInside(s: Buffer)
    ensures LF !in Unfinished(s)
    ensures forall i :: 0 <= i < |Pieces(s)| ==> LF !in Pieces(s)[i]
    ensures Joined(Pieces(s)) + Unfinished(s) == s
  {
    if s != [] {
      var front := s[..|s| - 1];
      NoNewlineInside(front);
      assert s == front + [s[|s| - 1]];
      if s[|s| - 1] == LF {
        assert Pieces(s)[..|Pieces(s)| - 1] == Pieces(front);
      }
    }
  }

  // More input only adds to what was split before.
  lemma {:induction false} SplitMore(a: Buffer, b: Buffer)
    ensures Pieces(a + b) == Pieces(a) + Pieces(Unfinished(a) + b)
    ensures Unfinished(a + b) == Unfinished(Unfinished(a) + b)
    decreases |b|
  {
    if b == [] {
      assert a + b == a && Unfinished(a) + b == Unfinished(a);
      NoNewlineInside(a);
      NothingToSplit(Unfinished(a));
    } else {
      var front, last := b[..|b| - 1], b[|b| - 1];
      SplitMore(a, front);
      var t := Unfinished(a);
      assert (a + b)[..|a + b| - 1] == a + front && (t + b)[..|t + b| - 1] == t + front;
    }
  }

  lemma {:induction false} NothingToSplit(t: Buffer)
    requires LF !in t
    ensures Pieces(t) == [] && Unfinished(t) == t
  {
    if t != [] {
      NothingToSplit(t[..|t| - 1]);
      assert t == t[..|t| - 1] + [t[|t| - 1]];
    }
  }

  // There is only one way to read s as newline-free pieces and a rest.
  lemma {:induction false} SplitUnique(pieces: seq<Buffer>, rest: Buffer)
    requires forall i :: 0 <= i < |pieces| ==> LF !in pieces[i]
    requires LF !in rest
    ensures Pieces(Joined(pieces) + rest) == pieces && Unfinished(Joined(pieces) + rest) == rest
  {
    if pieces == [] {
      assert Joined(pieces) + rest == rest;
      NothingToSplit(rest);
    } else {
      var front, last := pieces[..|pieces| - 1], pieces[|pieces| - 1];
      SplitUnique(front, last);
      var whole := Joined(pieces);
      assert whole[..|whole| - 1] == Joined(front) + last;
      assert Pieces(whole) == pieces && Unfinished(whole) == [];
      SplitMore(whole, rest);
      assert Unfinished(whole) + rest == rest;
      NothingToSplit(rest);
    }
  }

  lemma {:induction false} StripAllConcat(a: seq<Buffer>, b: seq<Buffer>)
    ensures StripAll(a + b) == StripAll(a) + StripAll(b)
  {
    if b == [] {
      assert a + b == a;
    } else {
      assert (a + b)[..|a + b| - 1] == a + b[..|b| - 1];
      StripAllConcat(a, b[..|b| - 1]);
    }
  }

  lemma {:induction false} StripAllAt(raws: seq<Buffer>, i: nat)
    requires i < |raws|
    ensures StripAll(raws)[i] == Strip(raws[i])
  {
    if i < |raws| - 1 {
      StripAllAt(raws[..|raws| - 1], i);
    }
  }

  // Every line is its piece, without the carriage return where it ends in one.
  lemma LinesArePieces(s: Buffer)
    ensures |Lines(s)| == |Pieces(s)|
    ensures forall i :: 0 <= i < |Lines(s)| ==>
      LF !in Lines(s)[i] && Pieces(s)[i] in {Lines(s)[i], Lines(s)[i] + [CR]}
    ensures forall i :: 0 <= i < |Lines(s)| && Pieces(s)[i] == Lines(s)[i] ==>
      Lines(s)[i] == [] || Lines(s)[i][|Lines(s)[i]| - 1] != CR
  {
    NoNewlineInside(s);
    forall i | 0 <= i < |Lines(s)| ensures Lines(s)[i] == Strip(Pieces(s)[i]) {
      StripAllAt(Pieces(s), i);
    }
  }

  // ----- Any division into chunks -----

  // One round of the receive loop on the kept bytes and a new chunk.
  datatype Splitter = Splitter(emitted: seq<Buffer>, kept: Buffer)

  function Receive(s: Splitter, chunk: Buffer): Splitter {
    Splitter(s.emitted + Lines(s.kept + chunk), Unfinished(s.kept + chunk))
  }

  function ReceiveAll(chunks: seq<Buffer>): Splitter {
    if chunks == [] then Splitter([], []) else Receive(ReceiveAll(chunks[..|chunks| - 1]), chunks[|chunks| - 1])
  }

  // However the input is cut into chunks, the lines emitted are those of the
  // whole input and the bytes kept are its unfinished rest.
  lemma {:induction false} ChunkingIsInvisible(chunks: seq<Buffer>)
    ensures ReceiveAll(chunks) == Splitter(Lines(Concat(chunks)), Unfinished(Concat(chunks)))
  {
    if chunks != [] {
      var front, last := chunks[..|chunks| - 1], chunks[|chunks| - 1];
      ChunkingIsInvisible(front);
      SplitMore(Concat(front), last);
      StripAllConcat(Pieces(Concat(front)), Pieces(Unfinished(Concat(front)) + last));
    }
  }
}
