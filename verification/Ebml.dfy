/** The EBML reader of `docs_journeys_report.py`: variable-length integers and the elements
    of a file, as in sections 4 to 6 of RFC 8794. */
module Ebml {
  import opened Wrappers

  type byte = b: int | 0 <= b < 256

  // --- Big-endian numbers ---

  /** 256 to the power of `n`. */
  function Base(n: nat): (b: nat)
    ensures b > 0
  {
    if n == 0 then 1 else Base(n - 1) * 256
  }

  function FromBytes(s: seq<byte>): nat {
    if s == [] then 0 else FromBytes(s[..|s| - 1]) * 256 + s[|s| - 1]
  }

  function ToBytes(v: nat, n: nat): (s: seq<byte>)
    ensures |s| == n
  {
    if n == 0 then [] else ToBytes(v / 256, n - 1) + [v % 256]
  }

  lemma {:induction false} FromToBytes(v: nat, n: nat)
    requires v < Base(n)
    ensures FromBytes(ToBytes(v, n)) == v
  {
    if n > 0 {
      FromToBytes(v / 256, n - 1);
      assert ToBytes(v, n)[..n - 1] == ToBytes(v / 256, n - 1);
    }
  }

  lemma {:induction false} ToFromBytes(s: seq<byte>)
    ensures ToBytes(FromBytes(s), |s|) == s
  {
    if s != [] {
      var n := |s| - 1;
      ToFromBytes(s[..n]);
      assert s == s[..n] + [s[n]];
      assert FromBytes(s) / 256 == FromBytes(s[..n]) && FromBytes(s) % 256 == s[n];
    }
  }

  lemma Scaled(first: int, b: int, whole: int, low: byte)
    requires first * b <= whole < (first + 1) * b
    ensures first * (b * 256) <= whole * 256 + low < (first + 1) * (b * 256)
  {
    assert first * (b * 256) == first * b * 256 && (first + 1) * (b * 256) == (first + 1) * b * 256;
  }

  /** The first byte decides a number's magnitude. */
  lemma {:induction false} FirstByte(s: seq<byte>)
    requires s != []
    ensures var first: int := s[0];
            first * Base(|s| - 1) <= FromBytes(s) < (first + 1) * Base(|s| - 1)
  {
    var n := |s| - 1;
    if n == 0 {
      assert s[..0] == [];
    } else {
      FirstByte(s[..n]);
      Scaled(s[0], Base(n - 1), FromBytes(s[..n]), s[n]);
    }
  }

  // --- Variable-length integers ---

  /** The marker bit of a number of this many bytes, in its first byte. */
  function Mask(length: nat): (m: nat)
    requires 1 <= length <= 8
    ensures 1 <= m <= 128
    ensures m == [128, 64, 32, 16, 8, 4, 2, 1][length - 1]
  {
    if length == 1 then 128 else Mask(length - 1) / 2
  }

  /** How many values a number of this many bytes can hold: 2 to the power of 7 * length. */
  function Limit(length: nat): nat
    requires 1 <= length <= 8
  {
    Mask(length) * Base(length - 1)
  }

  function Power(n: nat): nat {
    if n == 0 then 1 else 2 * Power(n - 1)
  }

  lemma {:induction false} LimitIsPower(length: nat)
    requires 1 <= length <= 8
    ensures Limit(length) == Power(7 * length)
  {
    SevenMore(7 * length - 7);
    if length > 1 {
      LimitIsPower(length - 1);
      var m, b := Mask(length), Base(length - 2);
      assert Mask(length - 1) == 2 * m;
      assert m * (b * 256) == 128 * (2 * m * b);
    }
  }

  lemma SevenMore(n: nat)
    ensures Power(n + 7) == 128 * Power(n)
  {
    assert Power(n + 7) == 2 * Power(n + 6) == 4 * Power(n + 5) == 8 * Power(n + 4);
    assert Power(n + 4) == 2 * Power(n + 3) == 4 * Power(n + 2) == 8 * Power(n + 1);
  }

  /** Section 4 of RFC 8794: the marker bit, then the value, big-endian. */
  function Encode(length: nat, v: nat): seq<byte>
    requires 1 <= length <= 8
  {
    ToBytes(Limit(length) + v, length)
  }

  datatype Vint = Vint(value: nat, length: nat, unknown: bool)

  datatype WebmError = CutShort | TooLong

  /** How many bytes a number that starts with this byte takes. */
  function LengthOf(first: byte, from: nat): (length: nat)
    requires 1 <= from <= 8 && 0 < first < 2 * Mask(from)
    ensures from <= length <= 8 && Mask(length) <= first < 2 * Mask(length)
    decreases 8 - from
  {
    if first >= Mask(from) then from else LengthOf(first, from + 1)
  }

  /** The number that starts at `pos`. With `marker` the length bit stays in it, as in an ID;
      without, a value whose bits are all set stands for an unknown size. */
  function VintAt(data: seq<byte>, pos: nat, marker: bool): Result<Vint, WebmError> {
    if pos >= |data| then Err(CutShort)
    else if data[pos] == 0 then Err(TooLong)
    else
      var length := LengthOf(data[pos], 1);
      if pos + length > |data| then Err(CutShort)
      else
        var whole := FromBytes(data[pos..pos + length]);
        FirstByteAt(data, pos, length);
        var value := if marker then whole else whole - Limit(length);
        Ok(Vint(value, length, !marker && value == Limit(length) - 1))
  }

  lemma FirstByteAt(data: seq<byte>, pos: nat, length: nat)
    requires 1 <= length <= 8 && pos + length <= |data|
    requires Mask(length) <= data[pos] < 2 * Mask(length)
    ensures Limit(length) <= FromBytes(data[pos..pos + length]) < 2 * Limit(length)
  {
    var s := data[pos..pos + length];
    FirstByte(s);
    MagnitudeOf(s[0], Mask(length), Base(length - 1), FromBytes(s));
  }

  /** A leading digit between `m` and `2 * m` and a number between the same multiples of the
      base are the same thing. */
  lemma MagnitudeOf(first: nat, m: nat, b: nat, whole: nat)
    requires b > 0 && first * b <= whole < (first + 1) * b
    ensures m <= first < 2 * m <==> m * b <= whole < 2 * (m * b)
  {
    assert 2 * (m * b) == (2 * m) * b;
    Multiples(first, m, b, whole);
    Multiples(first, 2 * m, b, whole);
  }

  lemma Multiples(first: nat, m: nat, b: nat, whole: nat)
    requires b > 0 && first * b <= whole < (first + 1) * b
    ensures m <= first <==> m * b <= whole
  {
    if m <= first {
      Times(m, first, b);
    } else {
      Times(first + 1, m, b);
    }
  }

  lemma Times(a: nat, b: nat, c: nat)
    requires a <= b
    ensures a * c <= b * c
  {
  }

  /** The reader: the length from the first byte's highest bit, then byte by byte. */
  method ReadVint(data: seq<byte>, pos: nat, marker: bool) returns (r: Result<Vint, WebmError>)
    ensures r == VintAt(data, pos, marker)
  {
    hide Mask, Base, FromBytes, LengthOf;
    if pos >= |data| {
      return Err(CutShort);
    }
    var first := data[pos];
    if first == 0 {
      return Err(TooLong);
    }
    var length, mask := ReadLength(first);
    if pos + length > |data| {
      return Err(CutShort);
    }
    var value: nat := if marker then first else first % mask;
    OneByte(first);
    assert data[pos..pos + 1] == [first];
    for k := pos + 1 to pos + length
      invariant FromBytes(data[pos..k]) == value + if marker then 0 else mask * Base(k - pos - 1)
    {
      MoreBytes(data, pos, k, mask);
      value := value * 256 + data[k];
    }
    var unknown := !marker && value == Limit(length) - 1;
    r := Ok(Vint(value, length, unknown));
  }

  lemma OneByte(b: byte)
    ensures FromBytes([b]) == b && Base(0) == 1
  {
    assert [b][..0] == [];
  }

  lemma MoreBytes(data: seq<byte>, pos: nat, k: nat, mask: nat)
    requires pos < k < |data|
    ensures FromBytes(data[pos..k + 1]) == FromBytes(data[pos..k]) * 256 + data[k]
    ensures mask * Base(k - pos) == mask * Base(k - pos - 1) * 256
  {
    assert data[pos..k + 1][..k - pos] == data[pos..k];
    assert mask * (Base(k - pos - 1) * 256) == mask * Base(k - pos - 1) * 256;
  }

  /** Shifts the mask down to the highest bit that is set. */
  method ReadLength(first: byte) returns (length: nat, mask: nat)
    requires first > 0
    ensures length == LengthOf(first, 1) && mask == Mask(length) && first % mask == first - mask
  {
    length, mask := 1, 0x80;
    while first / mask % 2 == 0
      invariant 1 <= length <= 8 && mask == Mask(length) && first < 2 * mask
      invariant LengthOf(first, 1) == LengthOf(first, length)
      decreases 8 - length
    {
      assert first < mask by { OneBit(first, mask); }
      mask := mask / 2;
      length := length + 1;
    }
    OneBit(first, mask);
  }

  lemma OneBit(x: nat, mask: nat)
    requires mask > 0 && x < 2 * mask
    ensures x / mask % 2 == (if x < mask then 0 else 1)
    ensures x >= mask ==> x % mask == x - mask
  {
    if x < mask {
      assert x / mask == 0;
    } else {
      assert x == mask * 1 + (x - mask);
      assert x / mask == 1;
    }
  }

  /** Reading inverts encoding, for every width, at any place in a file: a size gives its
      value, unknown exactly when it is all ones; an ID gives its value with the marker. */
  lemma ReadEncoded(before: seq<byte>, length: nat, v: nat, after: seq<byte>, marker: bool)
    requires 1 <= length <= 8 && v < Limit(length)
    ensures VintAt(before + Encode(length, v) + after, |before|, marker) ==
            Ok(if marker then Vint(Limit(length) + v, length, false) else Vint(v, length, v == Limit(length) - 1))
  {
    var s := Encode(length, v);
    var data := before + s + after;
    var pos := |before|;
    assert data[pos..pos + length] == s && data[pos] == s[0];
    EncodedFirst(length, v);
    LengthIs(s[0], length, 1);
  }

  lemma EncodedFirst(length: nat, v: nat)
    requires 1 <= length <= 8 && v < Limit(length)
    ensures var s := Encode(length, v);
            FromBytes(s) == Limit(length) + v && Mask(length) <= s[0] < 2 * Mask(length)
  {
    hide Mask;
    var s := Encode(length, v);
    BelowBase(length, v);
    FromToBytes(Limit(length) + v, length);
    FirstByte(s);
    MagnitudeOf(s[0], Mask(length), Base(length - 1), FromBytes(s));
  }

  lemma BelowBase(length: nat, v: nat)
    requires 1 <= length <= 8 && v < Limit(length)
    ensures Limit(length) + v < Base(length)
  {
    hide Mask, Base;
    NextBase(length);
    HalfIsEnough(Mask(length), Base(length - 1), v);
  }

  lemma HalfIsEnough(m: nat, b: nat, v: nat)
    requires m <= 128 && v < m * b
    ensures m * b + v < 256 * b
  {
    Times(m, 128, b);
  }

  lemma NextBase(n: nat)
    requires n > 0
    ensures Base(n) == 256 * Base(n - 1)
  {
  }

  lemma {:induction false} LengthIs(first: byte, length: nat, from: nat)
    requires 1 <= from <= length <= 8 && Mask(length) <= first < 2 * Mask(length)
    requires 0 < first < 2 * Mask(from)
    ensures LengthOf(first, from) == length
    decreases length - from
  {
    if from < length {
      MaskFalls(from, length);
      LengthIs(first, length, from + 1);
    }
  }

  lemma MaskFalls(a: nat, b: nat)
    requires 1 <= a < b <= 8
    ensures 2 * Mask(b) <= Mask(a) && Mask(a) == 2 * Mask(a + 1)
  {
  }

  /** Encoding inverts reading: whatever is read is what stands there. */
  lemma EncodeRead(data: seq<byte>, pos: nat)
    requires VintAt(data, pos, false).Ok?
    ensures var r := VintAt(data, pos, false).value;
            && 1 <= r.length <= 8 && r.value < Limit(r.length)
            && data[pos..pos + r.length] == Encode(r.length, r.value)
  {
    hide FromBytes, ToBytes, Limit;
    var length := LengthOf(data[pos], 1);
    FirstByteAt(data, pos, length);
    ToFromBytes(data[pos..pos + length]);
  }

  /** A number is refused exactly where its first byte has no bit set, as too long, and where its bytes
      are not all there, as cut short: then those that are there begin with a number's first byte. */
  lemma WhenRefused(data: seq<byte>, pos: nat, marker: bool)
    ensures var r := VintAt(data, pos, marker);
            && (r == Err(TooLong) <==> pos < |data| && data[pos] == 0)
            && (r == Err(CutShort) <==>
                pos >= |data|
                || exists n :: pos + n > |data| && 1 <= n <= 8 && Mask(n) <= data[pos] < 2 * Mask(n))
  {
    hide FromBytes, Limit;
    if pos < |data| && data[pos] != 0 {
      OneLength(data[pos]);
      var n := LengthOf(data[pos], 1);
      assert Mask(n) <= data[pos] < 2 * Mask(n);
      assert VintAt(data, pos, marker) == Err(CutShort) <==> pos + n > |data|;
    }
  }

  lemma OneLength(first: byte)
    requires first > 0 && first < 2 * Mask(1)
    ensures var n := LengthOf(first, 1);
            forall m :: 1 <= m <= 8 ==> (m == n <==> Mask(m) <= first < 2 * Mask(m))
  {
    forall m | 1 <= m <= 8 && Mask(m) <= first < 2 * Mask(m)
      ensures m == LengthOf(first, 1)
    {
      LengthIs(first, m, 1);
    }
  }

  // --- Elements ---

  datatype Element = Element(id: nat, start: nat, stop: nat)

  /** What a walk over a parent yields before it ends or fails. */
  datatype Walk = Walk(elements: seq<Element>, error: Option<WebmError>)

  /** The element whose header is at `pos`, in a parent that ends at `end`. */
  function ElementAt(data: seq<byte>, pos: nat, end: nat): (r: Result<Element, WebmError>)
    requires pos < end
    ensures r.Ok? ==> pos < r.value.stop <= |data| && pos + 2 <= r.value.start <= |data|
  {
    match VintAt(data, pos, true)
    case Err(e) => Err(e)
    case Ok(id) =>
      match VintAt(data, pos + id.length, false)
      case Err(e) => Err(e)
      case Ok(size) =>
        var start := pos + id.length + size.length;
        var stop := if size.unknown then end else start + size.value;
        if stop > |data| then Err(CutShort) else Ok(Element(id.value, start, stop))
  }

  function ChildrenFrom(data: seq<byte>, pos: nat, end: nat): Walk
    decreases end - pos
  {
    if pos >= end then Walk([], None)
    else match ElementAt(data, pos, end)
      case Err(e) => Walk([], Some(e))
      case Ok(element) =>
        var rest := ChildrenFrom(data, element.stop, end);
        Walk([element] + rest.elements, rest.error)
  }

  /** The walk itself. It ends on all bytes. */
  method ReadChildren(data: seq<byte>, start: nat, end: nat) returns (walk: Walk)
    ensures walk == ChildrenFrom(data, start, end)
  {
    hide VintAt;
    var elements: seq<Element> := [];
    var pos := start;
    while pos < end
      invariant ChildrenFrom(data, start, end) ==
                Walk(elements + ChildrenFrom(data, pos, end).elements, ChildrenFrom(data, pos, end).error)
      decreases end - pos
    {
      var id := ReadVint(data, pos, true);
      if id.Err? {
        assert elements + [] == elements;
        return Walk(elements, Some(id.error));
      }
      var size := ReadVint(data, pos + id.value.length, false);
      if size.Err? {
        assert elements + [] == elements;
        return Walk(elements, Some(size.error));
      }
      var from := pos + id.value.length + size.value.length;
      var stop := if size.value.unknown then end else from + size.value.value;
      if stop > |data| {
        assert elements + [] == elements;
        return Walk(elements, Some(CutShort));
      }
      assert ElementAt(data, pos, end) == Ok(Element(id.value.value, from, stop));
      ghost var rest := ChildrenFrom(data, stop, end).elements;
      assert elements + ([Element(id.value.value, from, stop)] + rest) ==
             elements + [Element(id.value.value, from, stop)] + rest;
      elements := elements + [Element(id.value.value, from, stop)];
      pos := stop;
    }
    assert elements + [] == elements;
    walk := Walk(elements, None);
  }

  /** One element after another, each header at the end of the element above it. */
  predicate Chained(elements: seq<Element>, pos: nat) {
    forall k :: 0 <= k < |elements| ==>
      elements[k].start >= 2 + (if k == 0 then pos else elements[k - 1].stop)
  }

  /** On all bytes: what is yielded stands in the file, in order, and every element but the
      last stands wholly inside its parent, so only the last one can leave it. */
  lemma {:induction false} ChildrenAreInTheFile(data: seq<byte>, pos: nat, end: nat)
    ensures var walk := ChildrenFrom(data, pos, end);
            && (forall k :: 0 <= k < |walk.elements| ==> walk.elements[k].stop <= |data|)
            && Chained(walk.elements, pos)
            && (forall k :: 0 <= k < |walk.elements| - 1 ==>
                  walk.elements[k].start <= walk.elements[k].stop < end)
            && (walk.error.None? && pos < end ==>
                  walk.elements != [] && walk.elements[|walk.elements| - 1].stop >= end)
    decreases end - pos
  {
    hide VintAt;
    if pos < end && ElementAt(data, pos, end).Ok? {
      var element := ElementAt(data, pos, end).value;
      ChildrenAreInTheFile(data, element.stop, end);
      KnownSize(data, pos, end);
    }
  }

  lemma KnownSize(data: seq<byte>, pos: nat, end: nat)
    requires pos < end && ElementAt(data, pos, end).Ok?
    ensures var e := ElementAt(data, pos, end).value; e.stop < end ==> e.start <= e.stop
  {
  }

  // --- Serialised elements ---

  /** An element as it is written: the width and value of its ID, the width of its size,
      and its bytes. */
  datatype Node = Node(idWidth: nat, id: nat, sizeWidth: nat, payload: seq<byte>)

  /** Widths in range, the ID in its width, and a size that is not the unknown one. */
  predicate Writable(node: Node) {
    && 1 <= node.idWidth <= 8 && 1 <= node.sizeWidth <= 8
    && node.id < Limit(node.idWidth) && |node.payload| < Limit(node.sizeWidth) - 1
  }

  function Write(node: Node): seq<byte>
    requires Writable(node)
  {
    Encode(node.idWidth, node.id) + Encode(node.sizeWidth, |node.payload|) + node.payload
  }

  function WriteAll(nodes: seq<Node>): seq<byte>
    requires forall n :: n in nodes ==> Writable(n)
  {
    if nodes == [] then [] else Write(nodes[0]) + WriteAll(nodes[1..])
  }

  /** Where the elements of a written list stand when it starts at `pos`. */
  function Layout(nodes: seq<Node>, pos: nat): seq<Element>
    requires forall n :: n in nodes ==> Writable(n)
  {
    if nodes == [] then []
    else
      var node := nodes[0];
      assert node in nodes && Writable(node);
      var start := pos + node.idWidth + node.sizeWidth;
      var stop := start + |node.payload|;
      [Element(Limit(node.idWidth) + node.id, start, stop)] + Layout(nodes[1..], stop)
  }

  lemma ReadWritten(before: seq<byte>, node: Node, after: seq<byte>, end: nat)
    requires Writable(node) && end > |before|
    ensures var start := |before| + node.idWidth + node.sizeWidth;
            ElementAt(before + Write(node) + after, |before|, end) ==
            Ok(Element(Limit(node.idWidth) + node.id, start, start + |node.payload|))
  {
    hide VintAt, Encode, Limit;
    var id, size := Encode(node.idWidth, node.id), Encode(node.sizeWidth, |node.payload|);
    var data := before + Write(node) + after;
    WrittenLengths(node);
    assert data == before + id + (size + node.payload + after);
    ReadEncoded(before, node.idWidth, node.id, size + node.payload + after, true);
    assert data == (before + id) + size + (node.payload + after);
    ReadEncoded(before + id, node.sizeWidth, |node.payload|, node.payload + after, false);
  }

  /** An element whose size is the unknown one runs to its parent's end, or is cut short when the file
      ends before that. */
  lemma UnknownRunsToTheEnd(before: seq<byte>, idWidth: nat, id: nat, sizeWidth: nat, v: nat,
                              after: seq<byte>, end: nat)
    requires 1 <= idWidth <= 8 && 1 <= sizeWidth <= 8 && id < Limit(idWidth) && end > |before|
    requires v == Limit(sizeWidth) - 1
    ensures var size := Encode(sizeWidth, v);
            var data := before + Encode(idWidth, id) + (size + after);
            ElementAt(data, |before|, end) ==
            if end > |data| then Err(CutShort)
            else Ok(Element(Limit(idWidth) + id, |before| + idWidth + sizeWidth, end))
  {
    hide VintAt, Encode, Limit, Mask;
    var first, size := Encode(idWidth, id), Encode(sizeWidth, v);
    EncodedLength(idWidth, id);
    EncodedLength(sizeWidth, v);
    ReadEncoded(before, idWidth, id, size + after, true);
    assert before + first + (size + after) == (before + first) + size + after;
    ReadEncoded(before + first, sizeWidth, v, after, false);
  }

  lemma EncodedLength(length: nat, v: nat)
    requires 1 <= length <= 8
    ensures |Encode(length, v)| == length
  {
  }

  lemma WrittenLengths(node: Node)
    requires Writable(node)
    ensures |Encode(node.idWidth, node.id)| == node.idWidth
    ensures |Encode(node.sizeWidth, |node.payload|)| == node.sizeWidth
    ensures |Write(node)| == node.idWidth + node.sizeWidth + |node.payload|
  {
  }

  lemma FirstWritten(a: seq<byte>, b: seq<byte>, c: seq<byte>, d: seq<byte>)
    ensures a + (b + c) + d == a + b + (c + d) == (a + b) + c + d
  {
  }

  /** Walking over written elements yields exactly them, in order, wherever the list stands
      in a file, and ends without an error. */
  lemma {:induction false} ChildrenOfWritten(before: seq<byte>, nodes: seq<Node>, after: seq<byte>)
    requires forall n :: n in nodes ==> Writable(n)
    ensures ChildrenFrom(before + WriteAll(nodes) + after, |before|, |before| + |WriteAll(nodes)|) ==
            Walk(Layout(nodes, |before|), None)
    decreases |nodes|
  {
    hide ElementAt, Write, Writable;
    if nodes != [] {
      var node, rest := nodes[0], WriteAll(nodes[1..]);
      var end := |before| + |WriteAll(nodes)|;
      assert node in nodes;
      WrittenLengths(node);
      WrittenNotEmpty(node);
      FirstWritten(before, Write(node), rest, after);
      ReadWritten(before, node, rest + after, end);
      ChildrenOfWritten(before + Write(node), nodes[1..], after);
    }
  }

  lemma WrittenNotEmpty(node: Node)
    requires Writable(node)
    ensures |Write(node)| >= 2
  {
  }

  /** An element is held against the file's end and not its parent's: here a parent of
      three bytes yields an element that ends in the fourth. */
  lemma ChildMayLeaveItsParent()
    ensures ChildrenFrom([0x81, 0x82, 0, 0], 0, 3) == Walk([Element(0x81, 2, 4)], None)
  {
    var data: seq<byte> := [0x81, 0x82, 0, 0];
    assert data[0..1] == [0x81] && data[1..2] == [0x82];
    OneByte(0x81);
    OneByte(0x82);
    assert VintAt(data, 0, true) == Ok(Vint(0x81, 1, false));
    assert VintAt(data, 1, false) == Ok(Vint(2, 1, false));
    assert ElementAt(data, 0, 3) == Ok(Element(0x81, 2, 4));
  }

  // --- When the walk stays inside its parent ---

  /** The number read from a file cut at `end`: the same one when it ends by there. */
  lemma VintOfCut(data: seq<byte>, pos: nat, end: nat, marker: bool)
    requires end <= |data|
    ensures var r, cut := VintAt(data, pos, marker), VintAt(data[..end], pos, marker);
            if r.Ok? && pos + r.value.length <= end then cut == r else cut.Err?
  {
    hide FromBytes, Limit, Mask;
    if pos < end && data[pos] != 0 {
      assert data[..end][pos] == data[pos];
      var length := LengthOf(data[pos], 1);
      if length <= 8 && pos + length <= end {
        assert data[..end][pos..pos + length] == data[pos..pos + length];
      }
    }
  }

  /** The element read from a file cut at its parent's end: the same one when it and its
      header end by there. */
  lemma ElementOfCut(data: seq<byte>, pos: nat, end: nat)
    requires pos < end <= |data|
    ensures var r, cut := ElementAt(data, pos, end), ElementAt(data[..end], pos, end);
            if r.Ok? && r.value.start <= end && r.value.stop <= end then cut == r else cut.Err?
  {
    hide VintAt;
    VintOfCut(data, pos, end, true);
    var id := VintAt(data, pos, true);
    if id.Ok? {
      VintOfCut(data, pos + id.value.length, end, false);
    }
  }

  predicate Inside(elements: seq<Element>, end: nat) {
    forall k :: 0 <= k < |elements| ==> elements[k].start <= elements[k].stop <= end
  }

  lemma InsideSplits(first: Element, rest: seq<Element>, end: nat)
    ensures Inside([first] + rest, end) <==> first.start <= first.stop <= end && Inside(rest, end)
  {
    var elements := [first] + rest;
    assert elements[0] == first && forall k :: 0 <= k < |rest| ==> elements[k + 1] == rest[k];
  }

  /** Exactly when every element ends by its parent's end and starts by its own: when the walk
      fails, or when it does not fail on the file cut at the parent's end. Then the cut file
      yields the same elements. */
  lemma {:induction false} WalkStaysInside(data: seq<byte>, pos: nat, end: nat)
    requires end <= |data|
    ensures var walk, cut := ChildrenFrom(data, pos, end), ChildrenFrom(data[..end], pos, end);
            && (Inside(walk.elements, end) <==> walk.error.Some? || cut.error.None?)
            && (Inside(walk.elements, end) ==> cut.elements == walk.elements)
            && (cut.error.None? ==> walk.error.None?)
    decreases end - pos
  {
    hide VintAt, ElementAt, Inside;
    if pos >= end {
      assert Inside([], end) by { NothingInside(end); }
    } else {
      ElementOfCut(data, pos, end);
      var r := ElementAt(data, pos, end);
      if r.Err? {
        NothingInside(end);
      } else {
        KnownSize(data, pos, end);
        var element := r.value;
        var rest := ChildrenFrom(data, element.stop, end);
        InsideSplits(element, rest.elements, end);
        if element.start <= end && element.stop <= end {
          WalkStaysInside(data, element.stop, end);
        }
      }
    }
  }

  lemma NothingInside(end: nat)
    ensures Inside([], end)
  {
  }
}
