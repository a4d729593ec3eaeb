/** The byte format of the binary log: big-endian integers, entries with a size and a
    packed tag in front, and the directory that closes the log. */
module LogFormat {
  type byte = x: int | 0 <= x < 256

  const TWO_32: int := 0x1_0000_0000

  /** A 32-bit integer in network byte order (two's complement). */
  function Be32(x: int): (b: seq<byte>)
    ensures |b| == 4
  {
    var u := x % TWO_32;
    [u / 0x100_0000, u / 0x1_0000 % 256, u / 256 % 256, u % 256]
  }

  function FromBe32(b: seq<byte>): (x: int)
    requires |b| == 4
    ensures -0x8000_0000 <= x < 0x8000_0000
  {
    var u := ((b[0] as int * 256 + b[1]) * 256 + b[2]) * 256 + b[3];
    if u < 0x8000_0000 then u else u - TWO_32
  }

  lemma Be32RoundTrip(x: int)
    requires -0x8000_0000 <= x < 0x8000_0000
    ensures FromBe32(Be32(x)) == x
  {
    var u := x % TWO_32;
    assert u / 0x1_0000 == u / 0x100_0000 * 256 + u / 0x1_0000 % 256;
    assert u / 256 == u / 0x1_0000 * 256 + u / 256 % 256;
  }

  /** Network byte order: the first byte weighs most, and negative numbers are counted down
      from two to the 32nd. */
  lemma Be32IsBigEndian(x: int)
    requires -0x8000_0000 <= x < 0x8000_0000
    ensures var b := Be32(x);
      b[0] as int * 0x100_0000 + b[1] as int * 0x1_0000 + b[2] as int * 0x100 + b[3] == if x < 0 then x + 0x1_0000_0000 else x
  {
    var u := x % TWO_32;
    assert u / 0x1_0000 == u / 0x100_0000 * 256 + u / 0x1_0000 % 256;
    assert u / 256 == u / 0x1_0000 * 256 + u / 256 % 256;
  }

  lemma Be32OfBytes(b: seq<byte>)
    requires |b| == 4
    ensures Be32(FromBe32(b)) == b
  {
    var u := ((b[0] as int * 256 + b[1]) * 256 + b[2]) * 256 + b[3];
    assert FromBe32(b) % TWO_32 == u;
    var hi := b[0] as int * 256 + b[1];
    assert u / 0x1_0000 == hi;
    assert u / 256 == hi * 256 + b[2];
    assert u / 0x100_0000 == b[0] as int;
  }

  /** What `begEntry` .. `endEntry` leave in the log; `tag` is already packed. */
  datatype Entry = Entry(tag: int, payload: seq<byte>) {
    function Size(): nat { 8 + |payload| }

    function Bytes(): (b: seq<byte>)
      ensures |b| == Size()
    {
      Be32(Size()) + Be32(tag) + payload
    }

    /** The same entry while its size is still a placeholder. */
    function OpenBytes(): (b: seq<byte>)
      ensures |b| == Size()
    {
      Be32(0) + Be32(tag) + payload
    }
  }

  /** Bytes put outside any entry, or a closed entry. */
  datatype Item = Raw(bytes: seq<byte>) | Closed(entry: Entry) {
    function Bytes(): seq<byte> {
      if Raw? then bytes else entry.Bytes()
    }
  }

  function Rendered(items: seq<Item>): seq<byte> {
    if items == [] then [] else Rendered(items[..|items| - 1]) + items[|items| - 1].Bytes()
  }

  /** Adds loose bytes, to the last item when that is loose too. */
  function AddRaw(items: seq<Item>, bytes: seq<byte>): seq<Item> {
    var n := |items|;
    if n > 0 && items[n - 1].Raw? then items[..n - 1] + [Raw(items[n - 1].bytes + bytes)]
    else items + [Raw(bytes)]
  }

  lemma RenderedLast(items: seq<Item>, last: Item)
    ensures Rendered(items + [last]) == Rendered(items) + last.Bytes()
  {
    assert (items + [last])[..|items|] == items;
  }

  lemma RenderedAddRaw(items: seq<Item>, bytes: seq<byte>)
    ensures Rendered(AddRaw(items, bytes)) == Rendered(items) + bytes
  {
    var n := |items|;
    if n > 0 && items[n - 1].Raw? {
      RenderedLast(items[..n - 1], Raw(items[n - 1].bytes + bytes));
    } else {
      RenderedLast(items, Raw(bytes));
    }
  }

  lemma AddRawToNone(bytes: seq<byte>)
    ensures AddRaw([], bytes) == [Raw(bytes)]
  {}

  lemma AddRawTwice(items: seq<Item>, a: seq<byte>, b: seq<byte>)
    ensures AddRaw(AddRaw(items, a), b) == AddRaw(items, a + b)
  {
    var n := |items|;
    if n > 0 && items[n - 1].Raw? {
      assert items[n - 1].bytes + a + b == items[n - 1].bytes + (a + b);
    }
  }

  // ----- the directory: one number per packed tag -----

  function Tally(items: seq<Item>, tag: int): nat {
    if items == [] then 0
    else
      var last := items[|items| - 1];
      Tally(items[..|items| - 1], tag) + if last.Closed? && last.entry.tag == tag then 1 else 0
  }

  /** The log offset just past the first closed entry with this tag; 0 if there is none. */
  function FirstEnd(items: seq<Item>, tag: int): (p: nat)
    ensures p > 0 <==> Tally(items, tag) > 0
    ensures p <= |Rendered(items)|
  {
    if items == [] then 0
    else
      var init, last := items[..|items| - 1], items[|items| - 1];
      if FirstEnd(init, tag) > 0 then FirstEnd(init, tag)
      else if last.Closed? && last.entry.tag == tag then |Rendered(items)|
      else 0
  }

  /** Unused tags map to 0, a tag used once to the end of its entry, and a tag used
      again to the negated end of its first entry. */
  ghost predicate IsDirectory(dir: seq<int>, items: seq<Item>) {
    && (forall t :: 0 <= t < |dir| ==>
          dir[t] == if Tally(items, t) > 1 then 0 - FirstEnd(items, t) else FirstEnd(items, t))
    && (forall t :: t >= |dir| ==> Tally(items, t) == 0)
  }

  function Be32s(xs: seq<int>): (b: seq<byte>)
    ensures |b| == 4 * |xs|
  {
    if xs == [] then [] else Be32s(xs[..|xs| - 1]) + Be32(xs[|xs| - 1])
  }

  function Directory(dir: seq<int>): (b: seq<byte>)
    ensures |b| == 4 + 4 * |dir|
  {
    Be32(|dir|) + Be32s(dir)
  }

  function Trailer(dir: seq<int>): seq<byte> {
    Be32(0) + Be32(0) + Directory(dir) + Be32(|Directory(dir)|)
  }

  function ZlibName(): (b: seq<byte>)
    ensures |b| == 32
  {
    [122, 108, 105, 98] + seq(28, _ => 0)
  }

  /** Log version 26 and, when zlib is in use, a 32-byte extension header. */
  function Header(zlib: bool): seq<byte> {
    if zlib then Be32(26) + Be32(26) + Be32(32) + ZlibName()
    else Be32(26) + Be32(26) + Be32(0)
  }

  // ----- bytes, spelled out -----

  lemma SmallBe32(x: nat)
    requires x < 256
    ensures Be32(x) == [0, 0, 0, x]
  {
    assert x % TWO_32 == x && x / 0x100_0000 == 0 && x / 0x1_0000 == 0 && x / 256 == 0;
  }

  /** Both headers, an entry with tag 2 of category 1, and a trailer for two tags. */
  lemma SpelledOut()
    ensures Header(false) == [0, 0, 0, 26, 0, 0, 0, 26, 0, 0, 0, 0]
    ensures Header(true)[..16] == [0, 0, 0, 26, 0, 0, 0, 26, 0, 0, 0, 32, 122, 108, 105, 98]
    ensures Entry(0x1_0002, [7, 9]).Bytes() == [0, 0, 0, 10, 0, 1, 0, 2, 7, 9]
    ensures Trailer([0, 20]) == [0, 0, 0, 0, 0, 0, 0, 0, 0, 0, 0, 2, 0, 0, 0, 0, 0, 0, 0, 20, 0, 0, 0, 12]
  {
    hide Be32, Be32s;
    forall x: nat | x < 256 ensures Be32(x) == [0, 0, 0, x] {
      SmallBe32(x);
    }
    TwoBe32s(0, 20);
    PackedTag();
  }

  lemma TwoBe32s(x: int, y: int)
    ensures Be32s([x, y]) == Be32(x) + Be32(y)
  {
    hide Be32;
    assert [x, y][..1] == [x] && [x][..0] == [];
  }

  lemma PackedTag()
    ensures Be32(0x1_0002) == [0, 1, 0, 2]
  {}
}
