// What a receive loop makes of the bytes it has got.
module Splitting {
  import opened Bytes

  // Frames: what is handed on, in order. Broken: the loop copies from beyond
  // what was received, or does not advance.
  datatype Split = Frames(frames: seq<Buffer>) | Broken

  function Prepend(front: seq<Buffer>, rest: Split): Split {
    if rest.Frames? then Frames(front + rest.frames) else Broken
  }

  lemma PrependNothing(rest: Split)
    ensures Prepend([], rest) == rest
  {
    assert rest.Frames? ==> [] + rest.frames == rest.frames;
  }

  lemma PrependOne(front: seq<Buffer>, f: Buffer, rest: Split)
    ensures Prepend(front, Prepend([f], rest)) == Prepend(front + [f], rest)
  {
    assert rest.Frames? ==> front + ([f] + rest.frames) == (front + [f]) + rest.frames;
  }

  function Flatten(frames: seq<Buffer>): Buffer {
    if frames == [] then [] else frames[0] + Flatten(frames[1..])
  }
}
