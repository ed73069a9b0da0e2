// The parser of src/amqp/tlv_factory.c as it runs: mutually recursive methods
// that move one cursor and fill the children in loops.
module TlvReader {
  import opened Bytes
  import opened Wrappers
  import opened TlvFactory

  // What a step that moved the cursor from one place returns, against its
  // specification: None stands for an access outside the memory.
  ghost predicate Agrees<T>(r: Option<T>, at: nat, spec: Parsed<T>) {
    if spec.Good? then r == Some(spec.value) && at == spec.next else r == None
  }

  class Reader {
    const buf: Buffer
    var i: nat

    constructor (buf: Buffer)
      ensures this.buf == buf && i == 0
    {
      this.buf := buf;
      i := 0;
    }

    method Width(wide: bool) returns (r: Option<int>)
      requires i <= |buf|
      modifies this
      ensures i <= |buf| && Agrees(r, i, GetWidth(buf, old(i), wide))
    {
      if i + (if wide then 4 else 1) > |buf| {
        return None;
      }
      if wide {
        r := Some(GetInt(buf, i));
        i := i + 4;
      } else {
        r := Some(buf[i] as int);
        i := i + 1;
      }
    }

    method Head(wide: bool) returns (r: Option<(int, int)>)
      requires i <= |buf|
      modifies this
      ensures i <= |buf| && Agrees(r, i, GetHead(buf, old(i), wide))
    {
      var size := Width(wide);
      if size == None {
        return None;
      }
      var count := Width(wide);
      if count == None {
        return None;
      }
      return Some((size.value, count.value));
    }

    method Copy(n: int) returns (r: Option<Buffer>)
      requires i <= |buf|
      modifies this
      ensures i <= |buf| && Agrees(r, i, Take(buf, old(i), n))
    {
      if n < 0 || n > |buf| - i {
        return None;
      }
      r := Some(buf[i..i + n]);
      i := i + n;
    }

    // get_tlv
    method ReadTlv() returns (r: Option<Tlv>)
      requires i <= |buf|
      modifies this
      ensures i <= |buf| && Agrees(r, i, GetTlv(buf, old(i)))
      decreases |buf| - i, 2, 0
    {
      var c := ReadConstructor();
      if c == None {
        return None;
      }
      var v := ReadElement(c.value.code);
      if v == None {
        return None;
      }
      return Some(Tlv(c.value.code, c.value.descriptor, v.value));
    }

    // get_constructor
    method ReadConstructor() returns (r: Option<Constructor>)
      requires i <= |buf|
      modifies this
      ensures i <= |buf| && Agrees(r, i, GetConstructor(buf, old(i)))
      decreases |buf| - i, 1, 0
    {
      if i == |buf| {
        return None;
      }
      var code := buf[i];
      i := i + 1;
      if code != 0 {
        return Some(Constructor(code, None));
      }
      var descriptor := ReadTlv();
      if descriptor == None || i == |buf| {
        return None;
      }
      code := buf[i];
      i := i + 1;
      return Some(Constructor(code, descriptor));
    }

    // get_element
    method ReadElement(code: byte) returns (r: Option<Value>)
      requires i <= |buf|
      modifies this
      ensures i <= |buf| && Agrees(r, i, GetElement(code, buf, old(i)))
      decreases |buf| - i, 1, 0
    {
      match KindOf(code) {
        case Empty => r := Some(Absent);
        case Fixed(width, length) =>
          var b := Copy(width);
          r := if b == None then None else Some(Bytes(if width == 0 then [0] else b.value, length));
        case Variable(wide) => r := ReadVariable(wide);
        case EmptyList => r := Some(Hollow(0, 0));
        case ListOf(wide) => r := ReadList(wide, code);
        case MapOf(wide) => r := ReadMap(wide, code);
        case ArrayOf(wide) => r := ReadArray(wide, code);
      }
    }

    method ReadVariable(wide: bool) returns (r: Option<Value>)
      requires i <= |buf|
      modifies this
      ensures i <= |buf|
      ensures var n := GetWidth(buf, old(i), wide);
        if n.Undefined? || Take(buf, n.next, n.value).Undefined? then r == None
        else
          var b := Take(buf, n.next, n.value);
          r == Some(Bytes(b.value, if wide then None else Some(n.value))) && i == b.next
    {
      var n := Width(wide);
      if n == None {
        return None;
      }
      var b := Copy(n.value);
      return if b == None then None else Some(Bytes(b.value, if wide then None else Some(n.value)));
    }

    // The LIST_8 and LIST_32 branches.
    method ReadList(wide: bool, ghost code: byte) returns (r: Option<Value>)
      requires i <= |buf| && KindOf(code) == ListOf(wide)
      modifies this
      ensures i <= |buf| && Agrees(r, i, GetElement(code, buf, old(i)))
      decreases |buf| - i, 0, 0
    {
      var h := Head(wide);
      if h == None {
        return None;
      }
      var items := ReadItems(h.value.1);
      if items == None {
        return None;
      }
      return Some(if wide then Hollow(h.value.0, h.value.1) else List(h.value.0, h.value.1, items.value));
    }

    method ReadItems(count: int) returns (r: Option<seq<Tlv>>)
      requires i <= |buf|
      modifies this
      ensures i <= |buf| && Agrees(r, i, GetItems(buf, old(i), count))
      decreases |buf| - i, 3, 0
    {
      ghost var start := i;
      var items: seq<Tlv> := [];
      var j := 0;
      BeforeNothing(GetItems(buf, i, count));
      while j < count
        invariant start <= i <= |buf| && 0 <= j
        invariant j <= count || j == 0
        invariant GetItems(buf, start, count) == Before(items, GetItems(buf, i, count - j))
      {
        var x := ReadTlv();
        if x == None {
          return None;
        }
        BeforeBefore(items, [x.value], GetItems(buf, i, count - j - 1));
        items := items + [x.value];
        j := j + 1;
      }
      assert items + [] == items;
      return Some(items);
    }

    // The MAP_8 and MAP_32 branches.
    method ReadMap(wide: bool, ghost code: byte) returns (r: Option<Value>)
      requires i <= |buf| && KindOf(code) == MapOf(wide)
      modifies this
      ensures i <= |buf| && Agrees(r, i, GetElement(code, buf, old(i)))
      decreases |buf| - i, 0, 0
    {
      var h := Head(wide);
      if h == None {
        return None;
      }
      var entries := ReadEntries(i + h.value.0 - (if wide then 4 else 1), h.value.1);
      if entries == None {
        return None;
      }
      return Some(Map(h.value.0, h.value.1, entries.value));
    }

    method ReadEntries(stop: int, room: int) returns (r: Option<seq<Entry>>)
      requires i <= |buf|
      modifies this
      ensures i <= |buf| && Agrees(r, i, GetEntries(buf, old(i), stop, room))
      decreases |buf| - i, 3, 0
    {
      ghost var start := i;
      var entries: seq<Entry> := [];
      var j := 0;
      BeforeNothing(GetEntries(buf, i, stop, room));
      while i < stop
        invariant start <= i <= |buf|
        invariant GetEntries(buf, start, stop, room) == Before(entries, GetEntries(buf, i, stop, room - j))
        decreases |buf| - i
      {
        if j >= room {
          return None;
        }
        var k := ReadTlv();
        if k == None {
          return None;
        }
        var v := ReadTlv();
        if v == None {
          return None;
        }
        BeforeBefore(entries, [Entry(k.value, v.value)], GetEntries(buf, i, stop, room - j - 1));
        entries := entries + [Entry(k.value, v.value)];
        j := j + 1;
      }
      assert entries + [] == entries;
      return Some(entries);
    }

    // The ARRAY_8 and ARRAY_32 branches.
    method ReadArray(wide: bool, ghost code: byte) returns (r: Option<Value>)
      requires i <= |buf| && KindOf(code) == ArrayOf(wide)
      modifies this
      ensures i <= |buf| && Agrees(r, i, GetElement(code, buf, old(i)))
      decreases |buf| - i, 0, 0
    {
      var h := Head(wide);
      if h == None {
        return None;
      }
      var c := ReadConstructor();
      if c == None {
        return None;
      }
      var elements := ReadElements(c.value.code, h.value.1);
      if elements == None {
        return None;
      }
      return Some(Array(h.value.0, h.value.1, elements.value));
    }

    method ReadElements(code: byte, count: int) returns (r: Option<seq<Value>>)
      requires i <= |buf|
      modifies this
      ensures i <= |buf| && Agrees(r, i, GetElements(code, buf, old(i), count))
      decreases |buf| - i, 3, 0
    {
      ghost var start := i;
      var elements: seq<Value> := [];
      var j := 0;
      BeforeNothing(GetElements(code, buf, i, count));
      while j < count
        invariant start <= i <= |buf| && 0 <= j
        invariant j <= count || j == 0
        invariant GetElements(code, buf, start, count) == Before(elements, GetElements(code, buf, i, count - j))
      {
        var x := ReadElement(code);
        if x == None {
          return None;
        }
        BeforeBefore(elements, [x.value], GetElements(code, buf, i, count - j - 1));
        elements := elements + [x.value];
        j := j + 1;
      }
      assert elements + [] == elements;
      return Some(elements);
    }
  }
}
