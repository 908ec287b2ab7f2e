/**
  The BER encoder: snmp/snmpber.{cc,hh}.  `BER` states what encodings mean (X.690) with an independent decoder; `SNMPBER`
  is the encoder: a growing byte buffer with back-patched lengths.
 */
module BER {
  import opened Common

  // --- Lengths (section 8.1.3 of X.690) -------------------------------------------------

  const LEN_1_MAX := 0x7F
  const LEN_2_MAX := 0xFF
  const LEN_3_MAX := 0xFFFF

  function MaxLength(size: nat): nat {
    if size == 1 then LEN_1_MAX else if size == 2 then LEN_2_MAX else LEN_3_MAX
  }

  /** Length octets of a given size; octets are cut to 8 bits as stores to `unsigned char` are. */
  function LengthOf(n: nat, size: nat): (r: Bytes) {
    if size == 1 then [n % 256] else if size == 2 then [0x81, n % 256] else [0x82, (n / 256) % 256, n % 256]
  }

  /** The size of the shortest length octets, for n up to 65535. */
  function ShortestSize(n: nat): (size: nat)
    ensures size in {1, 2, 3} && (n <= LEN_3_MAX ==> n <= MaxLength(size))
    ensures forall k :: 1 <= k < size ==> n > MaxLength(k)
  {
    if n <= LEN_1_MAX then 1 else if n <= LEN_2_MAX then 2 else 3
  }

  /** A decoder for length octets: the length and how many octets it took. */
  function ReadLength(b: Bytes): (r: Option<(nat, nat)>)
    ensures r.Some? ==> 1 <= r.value.1 <= |b|
  {
    if b == [] then None
    else if b[0] < 0x80 then Some((b[0], 1))
    else if b[0] == 0x81 && |b| >= 2 then Some((b[1], 2))
    else if b[0] == 0x82 && |b| >= 3 then Some(((b[1] as int) * 256 + b[2], 3))
    else None
  }

  lemma LengthReads(n: nat, size: nat, rest: Bytes)
    requires size in {1, 2, 3} && n <= MaxLength(size)
    ensures ReadLength(LengthOf(n, size) + rest) == Some((n, size)) && |LengthOf(n, size)| == size
  {
  }

  // --- Items and their encoding ------------------------------------------------------------

  /** What a run of calls describes.  `long` tells which push opened the sequence. */
  datatype Item =
    | Prim(tag: Byte, content: Bytes)
    | Nest(tag: Byte, long: bool, items: seq<Item>)

  /** Bit 6 of the identifier octet (section 8.1.2.5 of X.690). */
  predicate Constructed(tag: Byte) {
    (tag / 32) % 2 == 1
  }

  function SizeFor(long: bool): nat {
    if long then 3 else 1
  }

  function Encode(x: Item): Bytes {
    match x
    case Prim(tag, content) => [tag] + LengthOf(|content|, ShortestSize(|content|)) + content
    case Nest(tag, long, items) =>
      var body := EncodeAll(items);
      [tag] + LengthOf(|body|, SizeFor(long)) + body
  }

  function EncodeAll(xs: seq<Item>): Bytes {
    if xs == [] then [] else Encode(xs[0]) + EncodeAll(xs[1..])
  }

  /** No content is longer than its length octets can say, and tags match the kind of the item. */
  predicate Fits(x: Item) {
    match x
    case Prim(tag, content) => |content| <= LEN_3_MAX && !Constructed(tag)
    case Nest(tag, long, items) => AllFit(items) && |EncodeAll(items)| <= MaxLength(SizeFor(long)) && Constructed(tag)
  }

  predicate AllFit(xs: seq<Item>) {
    forall i :: 0 <= i < |xs| ==> Fits(xs[i])
  }

  // --- Decoding ---------------------------------------------------------------------------------

  datatype Node = Leaf(tag: Byte, content: Bytes) | Branch(tag: Byte, nodes: seq<Node>)

  /** A plain BER reader: identifier, length, contents; constructed contents are read recursively. */
  function Decode(b: Bytes): Option<seq<Node>>
    decreases |b|, 0
  {
    if b == [] then Some([]) else
    match ReadLength(b[1..])
    case None => None
    case Some((n, size)) =>
      if 1 + size + n > |b| then None else
      var content := b[1 + size..1 + size + n];
      var (node, rest) := (ReadNode(b[0], content), Decode(b[1 + size + n..]));
      if node.Some? && rest.Some? then Some([node.value] + rest.value) else None
  }

  function ReadNode(tag: Byte, content: Bytes): Option<Node>
    decreases |content|, 1
  {
    if !Constructed(tag) then Some(Leaf(tag, content)) else
    match Decode(content)
    case Some(nodes) => Some(Branch(tag, nodes))
    case None => None
  }

  function Meaning(x: Item): Node {
    match x
    case Prim(tag, content) => Leaf(tag, content)
    case Nest(tag, _, items) => Branch(tag, MeaningAll(items))
  }

  function MeaningAll(xs: seq<Item>): seq<Node> {
    if xs == [] then [] else [Meaning(xs[0])] + MeaningAll(xs[1..])
  }

  /** Reading past one item whose length octets `len` say so. */
  lemma DecodePast(tag: Byte, len: Bytes, content: Bytes, rest: Bytes, node: Node, nodes: seq<Node>)
    requires ReadLength(len + (content + rest)) == Some((|content|, |len|))
    requires ReadNode(tag, content) == Some(node) && Decode(rest) == Some(nodes)
    ensures Decode([tag] + len + content + rest) == Some([node] + nodes)
  {
    Parts(tag, len, content, rest);
    DecodeParts([tag] + len + content + rest, |content|, |len|, node, nodes);
  }

  lemma Parts(tag: Byte, len: Bytes, content: Bytes, rest: Bytes)
    ensures var (b, k) := ([tag] + len + content + rest, 1 + |len|);
            && b[0] == tag
            && b[1..] == len + (content + rest)
            && b[k..k + |content|] == content
            && b[k + |content|..] == rest
  {
  }

  lemma DecodeParts(b: Bytes, n: nat, size: nat, node: Node, nodes: seq<Node>)
    requires |b| >= 1 + size + n && ReadLength(b[1..]) == Some((n, size))
    requires ReadNode(b[0], b[1 + size..1 + size + n]) == Some(node) && Decode(b[1 + size + n..]) == Some(nodes)
    ensures Decode(b) == Some([node] + nodes)
  {
  }

  lemma DecodeStep(tag: Byte, size: nat, content: Bytes, rest: Bytes, node: Node, nodes: seq<Node>)
    requires size in {1, 2, 3} && |content| <= MaxLength(size)
    requires ReadNode(tag, content) == Some(node) && Decode(rest) == Some(nodes)
    ensures Decode([tag] + LengthOf(|content|, size) + content + rest) == Some([node] + nodes)
  {
    LengthReads(|content|, size, content + rest);
    DecodePast(tag, LengthOf(|content|, size), content, rest, node, nodes);
  }

  /** Decoding is a left inverse of encoding: the bytes determine the whole tree. */
  lemma {:induction false} DecodeEncode(xs: seq<Item>)
    requires AllFit(xs)
    ensures Decode(EncodeAll(xs)) == Some(MeaningAll(xs))
    decreases xs
  {
    if xs != [] {
      DecodeEncode(xs[1..]);
      match xs[0]
      case Prim(tag, content) =>
        DecodeStep(tag, ShortestSize(|content|), content, EncodeAll(xs[1..]), Meaning(xs[0]), MeaningAll(xs[1..]));
      case Nest(tag, long, items) =>
        DecodeEncode(items);
        DecodeStep(tag, SizeFor(long), EncodeAll(items), EncodeAll(xs[1..]), Meaning(xs[0]), MeaningAll(xs[1..]));
    }
  }

  lemma {:induction false} EncodeAppend(xs: seq<Item>, y: Item)
    ensures EncodeAll(xs + [y]) == EncodeAll(xs) + Encode(y)
  {
    if xs == [] {
      assert [] + [y] == [y] && [y][1..] == [];
      EncodeCons([y], y, []);
    } else {
      var rest := xs[1..];
      EncodeAppend(rest, y);
      assert xs + [y] == [xs[0]] + (rest + [y]);
      EncodeCons(xs + [y], xs[0], rest + [y]);
      EncodeCons(xs, xs[0], rest);
      Associate(Encode(xs[0]), EncodeAll(rest), Encode(y));
    }
  }

  lemma EncodeCons(all: seq<Item>, x: Item, rest: seq<Item>)
    requires all == [x] + rest
    ensures EncodeAll(all) == Encode(x) + EncodeAll(rest)
  {
    assert all[1..] == rest;
  }
}

/** Contents of INTEGER and OBJECT IDENTIFIER (sections 8.3 and 8.19 of X.690). */
module BERContents {
  import opened Common

  // --- Integers -----------------------------------------------------------------------------------

  /** Big-endian base 256, at least one octet, leading bit clear. */
  function Magnitude(x: nat): (r: Bytes)
    ensures |r| >= 1 && r[0] <= 0x7F
  {
    if x <= 0x7F then [x] else Magnitude(x / 256) + [x % 256]
  }

  function Flip(b: Bytes): Bytes {
    seq(|b|, i requires 0 <= i < |b| => 255 - b[i])
  }

  function IntegerBytes(v: int): Bytes {
    if v < 0 then Flip(Magnitude(-v - 1)) else Magnitude(v)
  }

  function Unsigned(b: Bytes): nat {
    if b == [] then 0 else Unsigned(b[..|b| - 1]) * 256 + b[|b| - 1]
  }

  function Power256(n: nat): (p: nat)
    ensures p >= 1
  {
    if n == 0 then 1 else 256 * Power256(n - 1)
  }

  /** Two's complement. */
  function IntegerValue(b: Bytes): int
    requires b != []
  {
    if b[0] >= 0x80 then Unsigned(b) - Power256(|b|) else Unsigned(b)
  }

  /** Section 8.3.2 of X.690: the first nine bits are not all equal. */
  predicate IsShortest(b: Bytes) {
    |b| > 1 ==> !(b[0] == 0 && b[1] < 0x80) && !(b[0] == 0xFF && b[1] >= 0x80)
  }

  lemma {:induction false} MagnitudeValue(x: nat)
    ensures Unsigned(Magnitude(x)) == x && IsShortest(Magnitude(x))
  {
    var b := Magnitude(x);
    if x > 0x7F {
      MagnitudeValue(x / 256);
      assert b[..|b| - 1] == Magnitude(x / 256);
    } else {
      assert b[..0] == [];
    }
  }

  lemma {:induction false} FlipValue(b: Bytes)
    ensures Unsigned(Flip(b)) == Power256(|b|) - 1 - Unsigned(b)
  {
    if b != [] {
      FlipValue(b[..|b| - 1]);
      assert Flip(b)[..|b| - 1] == Flip(b[..|b| - 1]);
    }
  }

  /** Integers are recovered, and are in shortest two's complement form. */
  lemma IntegerRoundTrip(v: int)
    ensures IntegerBytes(v) != [] && IntegerValue(IntegerBytes(v)) == v && IsShortest(IntegerBytes(v))
  {
    var m := if v < 0 then -v - 1 else v;
    MagnitudeValue(m);
    FlipValue(Magnitude(m));
  }

  lemma {:induction false} MagnitudeSize(x: nat, n: nat)
    requires x < Power256(n)
    ensures |Magnitude(x)| <= n + 1
    decreases n
  {
    if x > 0x7F {
      MagnitudeSize(x / 256, n - 1);
    }
  }

  lemma Power8()
    ensures Power256(8) == 0x1_0000_0000_0000_0000
  {
    assert Power256(2) == 0x1_0000;
    assert Power256(4) == 0x1_0000_0000;
    assert Power256(6) == 0x1_0000_0000_0000;
  }

  /** A 64-bit integer takes at most nine octets, so its length is one octet. */
  lemma IntegerFits(v: int)
    requires -0x8000_0000_0000_0000 <= v < 0x1_0000_0000_0000_0000
    ensures |IntegerBytes(v)| <= 9
  {
    Power8();
    MagnitudeSize(if v < 0 then -v - 1 else v, 8);
  }

  // --- Object identifiers ----------------------------------------------------------------------------

  type Word = x: int | 0 <= x < 0x1_0000_0000
  type Oid = seq<Word>

  predicate OidAccepted(oid: Oid) {
    |oid| >= 2 && oid[0] <= 2 && oid[1] < 40
  }

  function ComponentSize(c: Word): nat {
    if c <= 0x7F then 1 else if c <= 0x3FFF then 2 else if c <= 0x1F_FFFF then 3 else if c <= 0xFFF_FFFF then 4 else 5
  }

  /** (c >> shift) | 0x80, cut to one octet. */
  function More(c: Word, p: nat): Byte
    requires p > 0
  {
    128 + (c / p) % 128
  }

  function Component(c: Word): Bytes {
    if c <= 0x7F then [c]
    else if c <= 0x3FFF then [More(c, 0x80), c % 128]
    else if c <= 0x1F_FFFF then [More(c, 0x4000), More(c, 0x80), c % 128]
    else if c <= 0xFFF_FFFF then [More(c, 0x20_0000), More(c, 0x4000), More(c, 0x80), c % 128]
    else [More(c, 0x1000_0000), More(c, 0x20_0000), More(c, 0x4000), More(c, 0x80), c % 128]
  }

  function Components(oid: Oid): Bytes {
    if oid == [] then [] else Components(oid[..|oid| - 1]) + Component(oid[|oid| - 1])
  }

  function OidBytes(oid: Oid): Bytes
    requires OidAccepted(oid)
  {
    [oid[0] * 40 + oid[1]] + Components(oid[2..])
  }

  /** Base-128 digits, most significant first; bit 8 says that more follow. */
  function ReadArcs(b: Bytes, acc: nat, more: bool): Option<seq<nat>> {
    if b == [] then (if more then None else Some([]))
    else if b[0] >= 128 then ReadArcs(b[1..], acc * 128 + (b[0] - 128), true)
    else
      match ReadArcs(b[1..], 0, false)
      case Some(rest) => Some([acc * 128 + b[0]] + rest)
      case None => None
  }

  function OidValue(b: Bytes): Option<seq<nat>> {
    if b == [] || b[0] >= 120 then None else
    match ReadArcs(b[1..], 0, false)
    case Some(rest) => Some([b[0] / 40, b[0] % 40] + rest)
    case None => None
  }

  lemma ReadMore(d: Byte, t: Bytes, acc: nat, more: bool)
    requires d >= 128
    ensures ReadArcs([d] + t, acc, more) == ReadArcs(t, acc * 128 + (d - 128), true)
  {
    assert ([d] + t)[1..] == t;
  }

  lemma ReadLast(d: Byte, t: Bytes, acc: nat, more: bool, rest: seq<nat>)
    requires d < 128 && ReadArcs(t, 0, false) == Some(rest)
    ensures ReadArcs([d] + t, acc, more) == Some([acc * 128 + d] + rest)
  {
    assert ([d] + t)[1..] == t;
  }

  function Pow128(n: nat): nat {
    if n == 0 then 1 else 128 * Pow128(n - 1)
  }

  /** The n + 1 lowest base-128 digits of c, all marked to be continued. */
  function Marked(c: nat, n: nat): Bytes {
    (if n == 0 then [] else Marked(c / 128, n - 1)) + [128 + c % 128]
  }

  lemma {:induction false} ReadMarked(c: nat, n: nat, t: Bytes)
    requires c < Pow128(n + 1)
    ensures ReadArcs(Marked(c, n) + t, 0, false) == ReadArcs(t, c, true)
    decreases n
  {
    var d := [128 + c % 128];
    if n == 0 {
      assert Marked(c, n) + t == d + t;
      ReadMore(128 + c % 128, t, 0, false);
    } else {
      ReadMarked(c / 128, n - 1, d + t);
      assert Marked(c, n) + t == Marked(c / 128, n - 1) + (d + t);
      ReadMore(128 + c % 128, t, c / 128, true);
    }
  }

  lemma Digits(c: Word)
    ensures c / 128 / 128 == c / 0x4000
    ensures c / 0x4000 / 128 == c / 0x20_0000
    ensures c / 0x20_0000 / 128 == c / 0x1000_0000
  {
  }

  lemma MarkedZero(d: nat)
    ensures Marked(d, 0) == [128 + d % 128]
  {
  }

  lemma MarkedMore(d: nat, n: nat)
    requires n > 0
    ensures Marked(d, n) == Marked(d / 128, n - 1) + [128 + d % 128]
  {
  }

  lemma MarkedTwo(c: Word)
    ensures Marked(c / 128, 1) == [More(c, 0x4000), More(c, 0x80)]
  {
    Digits(c);
    MarkedMore(c / 128, 1);
    MarkedZero(c / 0x4000);
  }

  lemma MarkedThree(c: Word)
    ensures Marked(c / 128, 2) == [More(c, 0x20_0000), More(c, 0x4000), More(c, 0x80)]
  {
    Digits(c);
    MarkedMore(c / 128, 2);
    MarkedMore(c / 0x4000, 1);
    MarkedZero(c / 0x20_0000);
  }

  lemma MarkedFour(c: Word)
    ensures Marked(c / 128, 3) == [More(c, 0x1000_0000), More(c, 0x20_0000), More(c, 0x4000), More(c, 0x80)]
  {
    Digits(c);
    MarkedMore(c / 128, 3);
    MarkedMore(c / 0x4000, 2);
    MarkedMore(c / 0x20_0000, 1);
    MarkedZero(c / 0x1000_0000);
  }

  lemma Powers128()
    ensures Pow128(1) == 128 && Pow128(2) == 0x4000 && Pow128(3) == 0x20_0000 && Pow128(4) == 0x1000_0000
  {
  }

  /** The unrolled cases of the code are the base-128 digits. */
  lemma ComponentIsMarked(c: Word)
    requires c > 0x7F
    ensures Component(c) == Marked(c / 128, ComponentSize(c) - 2) + [c % 128]
    ensures c / 128 < Pow128(ComponentSize(c) - 1)
  {
    Powers128();
    if c <= 0x3FFF {
      MarkedZero(c / 128);
    } else if c <= 0x1F_FFFF {
      MarkedTwo(c);
    } else if c <= 0xFFF_FFFF {
      MarkedThree(c);
    } else {
      MarkedFour(c);
    }
  }

  lemma LeadingDigit(c: Word)
    ensures 0x7F < c <= 0x3FFF ==> 0 < c / 0x80 < 128
    ensures 0x3FFF < c <= 0x1F_FFFF ==> 0 < c / 0x4000 < 128
    ensures 0x1F_FFFF < c <= 0xFFF_FFFF ==> 0 < c / 0x20_0000 < 128
    ensures 0xFFF_FFFF < c ==> 0 < c / 0x1000_0000 < 128
  {
  }

  lemma MoreNotZero(c: Word, p: nat)
    requires p > 0 && 0 < c / p < 128
    ensures More(c, p) != 128
  {
  }

  /** No component starts with a digit zero (section 8.19.2 of X.690). */
  lemma ComponentShortest(c: Word)
    ensures |Component(c)| == ComponentSize(c) && Component(c)[0] != 128
  {
    LeadingDigit(c);
    if c <= 0x7F {
    } else if c <= 0x3FFF {
      MoreNotZero(c, 0x80);
    } else if c <= 0x1F_FFFF {
      MoreNotZero(c, 0x4000);
    } else if c <= 0xFFF_FFFF {
      MoreNotZero(c, 0x20_0000);
    } else {
      MoreNotZero(c, 0x1000_0000);
    }
  }

  lemma ReadComponent(c: Word, t: Bytes, rest: seq<nat>, b: Bytes)
    requires ReadArcs(t, 0, false) == Some(rest) && b == Component(c)
    ensures ReadArcs(b + t, 0, false) == Some([c] + rest)
  {
    if c <= 0x7F {
      ReadLast(c, t, 0, false, rest);
    } else {
      ComponentIsMarked(c);
      ReadDigits(c, ComponentSize(c) - 2, t, rest, b);
    }
  }

  lemma ReadDigits(c: Word, n: nat, t: Bytes, rest: seq<nat>, b: Bytes)
    requires c / 128 < Pow128(n + 1) && ReadArcs(t, 0, false) == Some(rest) && b == Marked(c / 128, n) + [c % 128]
    ensures ReadArcs(b + t, 0, false) == Some([c] + rest)
  {
    ReadLong(c / 128, c % 128, n, t, rest);
    assert c / 128 * 128 + c % 128 == c;
  }

  lemma ReadLong(hi: nat, lo: Byte, n: nat, t: Bytes, rest: seq<nat>)
    requires hi < Pow128(n + 1) && lo < 128 && ReadArcs(t, 0, false) == Some(rest)
    ensures ReadArcs((Marked(hi, n) + [lo]) + t, 0, false) == Some([hi * 128 + lo] + rest)
  {
    ReadLast(lo, t, hi, true, rest);
    ReadMarked(hi, n, [lo] + t);
    Associate(Marked(hi, n), [lo], t);
  }

  lemma {:induction false} ReadComponents(oid: Oid, t: Bytes, rest: seq<nat>)
    requires ReadArcs(t, 0, false) == Some(rest)
    ensures ReadArcs(Components(oid) + t, 0, false) == Some(oid + rest)
  {
    if oid == [] {
      assert Components(oid) + t == t && oid + rest == rest;
    } else {
      var n := |oid| - 1;
      var b := Component(oid[n]);
      ReadComponent(oid[n], t, rest, b);
      ReadComponents(oid[..n], b + t, [oid[n]] + rest);
      Associate(Components(oid[..n]), b, t);
      Associate(oid[..n], [oid[n]], rest);
      assert oid == oid[..n] + [oid[n]];
    }
  }

  lemma ReadAll(rest: Oid)
    ensures ReadArcs(Components(rest), 0, false) == Some(rest)
  {
    ReadComponents(rest, [], []);
    assert Components(rest) + [] == Components(rest) && rest + [] == rest;
  }

  /** Every accepted OID is recovered. */
  lemma OidRoundTrip(oid: Oid)
    requires OidAccepted(oid)
    ensures OidValue(OidBytes(oid)) == Some(oid)
  {
    ReadAll(oid[2..]);
    OidValueOf(oid[0], oid[1], Components(oid[2..]), oid[2..]);
    assert oid == [oid[0], oid[1]] + oid[2..];
  }

  lemma OidValueOf(x: nat, y: nat, c: Bytes, rest: seq<nat>)
    requires x <= 2 && y < 40 && ReadArcs(c, 0, false) == Some(rest)
    ensures OidValue([x * 40 + y] + c) == Some([x, y] + rest)
  {
    assert ([x * 40 + y] + c)[1..] == c;
  }
}

/** The encoder. */
module SNMPBER {
  import opened Common
  import opened BER
  import opened BERContents

  datatype Status = Fine | Invalid | TooBig

  const TAG_NULL: Byte := 0x05
  const TAG_OID: Byte := 0x06

  datatype Open = Open(start: nat, size: nat)

  /** The buffer and the stack of sequences not yet popped. */
  datatype Buffer = Buffer(sa: Bytes, open: seq<Open>)

  // --- Calls and the tree they describe --------------------------------------------------------

  /** `hole` is what the length octets hold until they are patched. */
  datatype Call = Push(tag: Byte, long: bool, hole: Bytes) | Put(item: Item) | Pop | Abort

  function PushBuffer(b: Buffer, tag: Byte, long: bool, hole: Bytes): Buffer {
    Buffer(b.sa + [tag] + hole, b.open + [Open(|b.sa|, SizeFor(long))])
  }

  function Top(b: Buffer): Open
    requires b.open != []
  {
    b.open[|b.open| - 1]
  }

  function ContentLength(b: Buffer): int
    requires b.open != []
  {
    |b.sa| - (Top(b).start + 1 + Top(b).size)
  }

  /** `pop_sequence` when the reserved length octets suffice. */
  function PopBuffer(b: Buffer): Buffer
    requires b.open != [] && 0 <= ContentLength(b)
  {
    var o := Top(b);
    Buffer(b.sa[..o.start + 1] + LengthOf(ContentLength(b), o.size) + b.sa[o.start + 1 + o.size..],
           b.open[..|b.open| - 1])
  }

  function AbortBuffer(b: Buffer): Buffer
    requires b.open != [] && Top(b).start <= |b.sa|
  {
    Buffer(b.sa[..Top(b).start], b.open[..|b.open| - 1])
  }

  /** The items finished so far and, from the outside in, the sequences still open. */
  datatype Frame = Frame(tag: Byte, long: bool, items: seq<Item>)
  datatype Forest = Forest(done: seq<Item>, open: seq<Frame>)

  function Add(f: Forest, x: Item): Forest {
    if f.open == [] then f.(done := f.done + [x]) else
    var n := |f.open| - 1;
    f.(open := f.open[..n] + [f.open[n].(items := f.open[n].items + [x])])
  }

  predicate Allowed(f: Forest, c: Call) {
    match c
    case Push(tag, long, hole) => Constructed(tag) && |hole| == SizeFor(long)
    case Put(x) => x.Prim? && Fits(x)
    case Pop =>
      && f.open != []
      && var g := f.open[|f.open| - 1]; |EncodeAll(g.items)| <= MaxLength(SizeFor(g.long))
    case Abort => f.open != []
  }

  function Grow(f: Forest, c: Call): Forest
    requires Allowed(f, c)
  {
    match c
    case Push(tag, long, _) => Opened(f, tag, long)
    case Put(x) => Add(f, x)
    case Pop =>
      var n := |f.open| - 1;
      Add(f.(open := f.open[..n]), Nest(f.open[n].tag, f.open[n].long, f.open[n].items))
    case Abort => f.(open := f.open[..|f.open| - 1])
  }

  predicate Runs(f: Forest, cs: seq<Call>)
    decreases |cs|
  {
    cs == [] || (Allowed(f, cs[0]) && Runs(Grow(f, cs[0]), cs[1..]))
  }

  function GrowAll(f: Forest, cs: seq<Call>): Forest
    requires Runs(f, cs)
    decreases |cs|
  {
    if cs == [] then f else GrowAll(Grow(f, cs[0]), cs[1..])
  }

  // --- The buffer represents the tree ---------------------------------------------------------------

  /** An open sequence at the end of the buffer: its tag, unpatched length octets and finished contents. */
  predicate TopOk(g: Frame, o: Open, sa: Bytes) {
    && o.size == SizeFor(g.long)
    && o.start + 1 + o.size <= |sa|
    && sa[o.start] == g.tag && Constructed(g.tag)
    && AllFit(g.items)
    && sa[o.start + 1 + o.size..] == EncodeAll(g.items)
  }

  /** Finished items, then the open sequences from the outside in. */
  predicate Represents(f: Forest, b: Buffer)
    decreases |f.open|
  {
    && |f.open| == |b.open|
    && if f.open == [] then b.sa == EncodeAll(f.done) && AllFit(f.done) else
       var n := |f.open| - 1;
       && TopOk(f.open[n], b.open[n], b.sa)
       && Represents(Below(f), BufferBelow(b))
  }

  function Below(f: Forest): Forest
    requires f.open != []
  {
    f.(open := f.open[..|f.open| - 1])
  }

  function BufferBelow(b: Buffer): Buffer
    requires b.open != [] && Top(b).start <= |b.sa|
  {
    Buffer(b.sa[..Top(b).start], b.open[..|b.open| - 1])
  }

  lemma TopAppend(g: Frame, o: Open, sa: Bytes, x: Item, e: Bytes)
    requires TopOk(g, o, sa) && Fits(x) && e == Encode(x)
    ensures TopOk(g.(items := g.items + [x]), o, sa + e)
    ensures (sa + e)[..o.start] == sa[..o.start]
  {
    EncodeAppend(g.items, x);
    AppendAt(sa, o.start + 1 + o.size, e);
    AppendAt(sa, o.start, e);
  }

  lemma AppendAt(sa: Bytes, at: nat, e: Bytes)
    requires at <= |sa|
    ensures (sa + e)[at..] == sa[at..] + e && (sa + e)[..at] == sa[..at]
  {
  }

  lemma PutRepresents(f: Forest, b: Buffer, x: Item, e: Bytes)
    requires Represents(f, b) && Fits(x) && e == Encode(x)
    ensures Represents(Add(f, x), b.(sa := b.sa + e))
  {
    if f.open == [] {
      EncodeAppend(f.done, x);
    } else {
      var n := |f.open| - 1;
      TopAppend(f.open[n], b.open[n], b.sa, x, e);
      assert Below(Add(f, x)) == Below(f);
    }
  }

  lemma PushRepresents(f: Forest, b: Buffer, tag: Byte, long: bool, hole: Bytes)
    requires Represents(f, b) && Constructed(tag) && |hole| == SizeFor(long)
    ensures Represents(Opened(f, tag, long), PushBuffer(b, tag, long, hole))
  {
    var g, c := Opened(f, tag, long), PushBuffer(b, tag, long, hole);
    assert Below(g) == f && BufferBelow(c) == b;
    assert c.sa[|b.sa| + 1 + SizeFor(long)..] == [];
  }

  function Opened(f: Forest, tag: Byte, long: bool): Forest {
    f.(open := f.open + [Frame(tag, long, [])])
  }

  lemma PushOpens(b: Buffer, tag: Byte, long: bool, hole: Bytes)
    requires |hole| == SizeFor(long)
    ensures forall f :: Represents(f, b) && Constructed(tag) ==>
              Represents(Opened(f, tag, long), PushBuffer(b, tag, long, hole))
  {
    forall f | Represents(f, b) && Constructed(tag)
      ensures Represents(Opened(f, tag, long), PushBuffer(b, tag, long, hole))
    {
      PushRepresents(f, b, tag, long, hole);
    }
  }

  lemma AbortCloses(b: Buffer)
    requires b.open != [] && Top(b).start <= |b.sa|
    ensures forall f :: Represents(f, b) ==> f.open != [] && Represents(Below(f), AbortBuffer(b))
  {
  }

  lemma ContentIs(f: Forest, b: Buffer, body: Bytes)
    requires Represents(f, b) && f.open != [] && body == EncodeAll(f.open[|f.open| - 1].items)
    ensures var o := Top(b);
            && o.start + 1 + o.size <= |b.sa|
            && b.sa[o.start] == f.open[|f.open| - 1].tag
            && b.sa[o.start + 1 + o.size..] == body
            && ContentLength(b) == |body|
            && o.size == SizeFor(f.open[|f.open| - 1].long)
  {
    assert TopOk(f.open[|f.open| - 1], Top(b), b.sa);
  }

  lemma PopValue(b: Buffer, o: Open, tag: Byte, body: Bytes)
    requires b.open != [] && o == Top(b) && o.start + 1 + o.size <= |b.sa| && b.sa[o.start] == tag
    requires b.sa[o.start + 1 + o.size..] == body && ContentLength(b) == |body|
    ensures PopBuffer(b).sa == b.sa[..o.start] + ([tag] + LengthOf(|body|, o.size) + body)
  {
    Splice(b.sa, o.start, LengthOf(|body|, o.size), body);
  }

  lemma PopIsPut(f: Forest, b: Buffer, x: Item, e: Bytes)
    requires Represents(f, b) && Allowed(f, Pop) && e == Encode(x)
    requires var g := f.open[|f.open| - 1]; x == Nest(g.tag, g.long, g.items)
    ensures 0 <= ContentLength(b) && Fits(x)
    ensures PopBuffer(b) == BufferBelow(b).(sa := BufferBelow(b).sa + e)
  {
    var body := EncodeAll(x.items);
    ContentIs(f, b, body);
    PopValue(b, Top(b), x.tag, body);
  }

  lemma Splice(sa: Bytes, start: nat, len: Bytes, body: Bytes)
    requires start < |sa|
    ensures sa[..start + 1] + len + body == sa[..start] + ([sa[start]] + len + body)
  {
    assert sa[..start + 1] == sa[..start] + [sa[start]];
  }

  lemma PopRepresents(f: Forest, b: Buffer)
    requires Represents(f, b) && Allowed(f, Pop)
    ensures 0 <= ContentLength(b) && Represents(Grow(f, Pop), PopBuffer(b))
  {
    var g := f.open[|f.open| - 1];
    var x := Nest(g.tag, g.long, g.items);
    PopIsPut(f, b, x, Encode(x));
    PutRepresents(Below(f), BufferBelow(b), x, Encode(x));
  }

  /** A pop that is allowed closes the innermost sequence, whatever the spare memory holds. */
  lemma PopCloses(b: Buffer, spare: Bytes)
    requires Poppable(b) && |spare| == 2
    ensures forall f :: Represents(f, b) && Allowed(f, Pop) ==> Represents(Grow(f, Pop), Popped(b, spare))
  {
    forall f | Represents(f, b) && Allowed(f, Pop)
      ensures Represents(Grow(f, Pop), Popped(b, spare))
    {
      ContentIs(f, b, EncodeAll(f.open[|f.open| - 1].items));
      PopRepresents(f, b);
    }
  }

  // --- What pop_sequence does ------------------------------------------------------------------------

  predicate Poppable(b: Buffer) {
    b.open != [] && Top(b).size in {1, 3} && 0 <= ContentLength(b) <= LEN_3_MAX
  }

  /** The reserved length octets suffice. */
  predicate Suffices(b: Buffer)
    requires b.open != []
  {
    ContentLength(b) <= MaxLength(Top(b).size)
  }

  /** `pop_sequence`: patch the reserved octets, or make room for more with memory that holds `spare`. */
  function Popped(b: Buffer, spare: Bytes): Buffer
    requires Poppable(b) && |spare| == 2
  {
    if Suffices(b) then PopBuffer(b)
    else Buffer(Shift(b.sa, Top(b).start, ContentLength(b), ShortestSize(ContentLength(b)), spare), b.open[..|b.open| - 1])
  }

  /** What it should leave: the length in the octets reserved, or in as many as it needs, then the contents. */
  function Proper(b: Buffer): Buffer
    requires Poppable(b)
  {
    var (o, n) := (Top(b), ContentLength(b));
    Buffer(b.sa[..o.start + 1] + LengthOf(n, if Suffices(b) then o.size else ShortestSize(n)) + b.sa[o.start + 1 + o.size..],
           b.open[..|b.open| - 1])
  }

  /** Too few octets: everything is right but the last octet, which is what the memory held. */
  predicate LastIsStray(b: Buffer, spare: Bytes, sa: Bytes)
    requires Poppable(b) && |spare| == 2
  {
    var (right, size) := (Proper(b).sa, ShortestSize(ContentLength(b)));
    size in {2, 3} && right != [] && sa == right[|right| - 1 := spare[size - 2]]
  }

  /** The one case in which the reserved octets do not suffice: one octet, and two or three needed. */
  lemma ShortCase(b: Buffer)
    requires Poppable(b) && !Suffices(b)
    ensures var (start, n) := (Top(b).start, ContentLength(b));
            && ShortestSize(n) in {2, 3} && n > 0 && |b.sa| == start + 2 + n
            && Proper(b).sa == b.sa[..start + 1] + LengthOf(n, ShortestSize(n)) + b.sa[start + 2..]
  {
  }

  lemma ShiftMeans(sa: Bytes, start: nat, n: nat, size: nat, spare: Bytes, c: Bytes, right: Bytes)
    requires |sa| == start + 2 + n && size in {2, 3} && |spare| == 2 && n > 0
    requires c == Shift(sa, start, n, size, spare) && right == sa[..start + 1] + LengthOf(n, size) + sa[start + 2..]
    ensures right != [] && c == right[|right| - 1 := spare[size - 2]]
    ensures c == right <==> spare[size - 2] == sa[|sa| - 1]
  {
    Shifted(sa, start, n, size, spare);
    ShiftExact(sa, start, n, size, spare);
  }

  lemma PoppedShort(b: Buffer, spare: Bytes)
    requires Poppable(b) && |spare| == 2 && !Suffices(b)
    ensures LastIsStray(b, spare, Popped(b, spare).sa)
    ensures ShortestSize(ContentLength(b)) in {2, 3}
    ensures Popped(b, spare).sa == Proper(b).sa <==> spare[ShortestSize(ContentLength(b)) - 2] == b.sa[|b.sa| - 1]
  {
    ShortCase(b);
    ShiftMeans(b.sa, Top(b).start, ContentLength(b), ShortestSize(ContentLength(b)), spare,
               Popped(b, spare).sa, Proper(b).sa);
  }

  /** What a caller of `pop_sequence` gets. */
  ghost predicate Pops(b: Buffer, spare: Bytes, c: Buffer)
    requires Poppable(b) && |spare| == 2
  {
    && (forall f :: Represents(f, b) && Allowed(f, Pop) ==> Represents(Grow(f, Pop), c))
    && (if Suffices(b) then c == Proper(b) else c.open == Proper(b).open && LastIsStray(b, spare, c.sa))
  }

  lemma PoppedMeans(b: Buffer, spare: Bytes)
    requires Poppable(b) && |spare| == 2
    ensures Pops(b, spare, Popped(b, spare))
  {
    PopCloses(b, spare);
    if !Suffices(b) {
      PoppedShort(b, spare);
    }
  }

  /** The two cases of `pop_sequence`. */
  lemma Cases(b: Buffer, spare: Bytes, start: nat, reserved: nat, len: nat)
    requires Poppable(b) && |spare| == 2
    requires start == Top(b).start && reserved == Top(b).size && len == ContentLength(b)
    ensures LenLen(len) > reserved <==> !Suffices(b)
    ensures Popped(b, spare).open == b.open[..|b.open| - 1]
    ensures Suffices(b) ==> Popped(b, spare).sa == Patched(b.sa, start + 1, LengthOf(len, reserved))
    ensures !Suffices(b) ==> |b.sa| == start + 2 + len && LenLen(len) in {2, 3}
    ensures !Suffices(b) ==> Popped(b, spare).sa == Shift(b.sa, start, len, LenLen(len), spare)
  {
  }

  predicate PopsProperly(b: Buffer, spare: Bytes)
    requires Poppable(b) && |spare| == 2
  {
    Popped(b, spare).sa == Proper(b).sa
  }

  function Unlike(x: Byte): (spare: Bytes)
    ensures |spare| == 2 && spare[0] != x && spare[1] != x
  {
    if x == 0 then [1, 1] else [0, 0]
  }

  /** The guard: a sequence is closed properly whatever the memory holds exactly if its contents fit what was reserved. */
  lemma PopsProperlyExactly(b: Buffer)
    requires Poppable(b)
    ensures (forall spare: Bytes :: |spare| == 2 ==> PopsProperly(b, spare)) <==> Suffices(b)
  {
    if !Suffices(b) {
      var spare := Unlike(b.sa[|b.sa| - 1]);
      PoppedShort(b, spare);
      assert !PopsProperly(b, spare);
    }
  }

  lemma StepRepresents(f: Forest, b: Buffer, c: Call)
    requires Represents(f, b) && Allowed(f, c)
    ensures StepDefined(b, c) && Represents(Grow(f, c), Step(b, c))
  {
    match c
    case Push(tag, long, hole) => PushRepresents(f, b, tag, long, hole);
    case Put(x) => PutRepresents(f, b, x, Encode(x));
    case Pop => PopRepresents(f, b);
    case Abort =>
  }

  predicate StepDefined(b: Buffer, c: Call) {
    match c
    case Pop => b.open != [] && 0 <= ContentLength(b)
    case Abort => b.open != [] && Top(b).start <= |b.sa|
    case _ => true
  }

  function Step(b: Buffer, c: Call): Buffer
    requires StepDefined(b, c)
  {
    match c
    case Push(tag, long, hole) => PushBuffer(b, tag, long, hole)
    case Put(x) => b.(sa := b.sa + Encode(x))
    case Pop => PopBuffer(b)
    case Abort => AbortBuffer(b)
  }

  predicate BufferRuns(b: Buffer, cs: seq<Call>)
    decreases |cs|
  {
    cs == [] || (StepDefined(b, cs[0]) && BufferRuns(Step(b, cs[0]), cs[1..]))
  }

  function StepAll(b: Buffer, cs: seq<Call>): Buffer
    requires BufferRuns(b, cs)
    decreases |cs|
  {
    if cs == [] then b else StepAll(Step(b, cs[0]), cs[1..])
  }

  lemma {:induction false} RunRepresents(f: Forest, b: Buffer, cs: seq<Call>)
    requires Represents(f, b) && Runs(f, cs)
    ensures BufferRuns(b, cs) && Represents(GrowAll(f, cs), StepAll(b, cs))
    decreases |cs|
  {
    if cs != [] {
      StepRepresents(f, b, cs[0]);
      RunRepresents(Grow(f, cs[0]), Step(b, cs[0]), cs[1..]);
    }
  }

  /** Every balanced run yields bytes that a BER decoder maps back to exactly the calls that were not aborted. */
  lemma BalancedRunDecodes(cs: seq<Call>)
    requires Runs(Forest([], []), cs) && GrowAll(Forest([], []), cs).open == []
    ensures BufferRuns(Buffer([], []), cs)
    ensures Decode(StepAll(Buffer([], []), cs).sa) == Some(MeaningAll(GrowAll(Forest([], []), cs).done))
  {
    RunRepresents(Forest([], []), Buffer([], []), cs);
    DecodeEncode(GrowAll(Forest([], []), cs).done);
  }

  // --- The encoder object -------------------------------------------------------------------------

  /** `calculate_len_len` */
  function LenLen(n: nat): int {
    if n <= LEN_3_MAX then ShortestSize(n) else -3
  }

  function FlipIf(b: Byte, flip: bool): Byte {
    if flip then 255 - b else b
  }

  class Encoder {
    var sa: Bytes
    var open: seq<Open>

    ghost function State(): Buffer
      reads this
    {
      Buffer(sa, open)
    }

    constructor ()
      ensures State() == Buffer([], [])
    {
      sa, open := [], [];
    }

    /** Whatever tree the buffer stands for, it now stands for that tree with one more open sequence. */
    method PushSequence(tag: Byte, hole: Byte) returns (r: Status)
      modifies this
      ensures r == Fine && State() == PushBuffer(old(State()), tag, false, [hole])
      ensures forall f :: Represents(f, old(State())) && Constructed(tag) ==> Represents(Opened(f, tag, false), State())
    {
      PushOpens(State(), tag, false, [hole]);
      sa := sa + [tag, hole];
      open := open + [Open(|sa| - 2, 1)];
      assert [tag, hole] == [tag] + [hole];
      return Fine;
    }

    /** The same with three reserved length octets. */
    method PushLongSequence(tag: Byte, hole: Bytes) returns (r: Status)
      requires |hole| == 3
      modifies this
      ensures r == Fine && State() == PushBuffer(old(State()), tag, true, hole)
      ensures forall f :: Represents(f, old(State())) && Constructed(tag) ==> Represents(Opened(f, tag, true), State())
    {
      PushOpens(State(), tag, true, hole);
      sa := sa + ([tag] + hole);
      open := open + [Open(|sa| - 4, 3)];
      return Fine;
    }

    /**
      `pop_sequence`.  Where the reserved octets are too few, the code moves the contents one octet short: the encoding
      comes out right except that its last octet is whatever the extended memory held.
     */
    method PopSequence(spare: Bytes) returns (r: Status)
      requires Poppable(State()) && |spare| == 2
      modifies this
      ensures r == Fine && State() == Popped(old(State()), spare) && Pops(old(State()), spare, State())
    {
      PoppedMeans(State(), spare);
      sa, open := Closed(State(), sa, open, spare);
      return Fine;
    }

    /** The new buffer and stack of `pop_sequence`. */
    method Closed(ghost b: Buffer, sa: Bytes, open: seq<Open>, spare: Bytes) returns (c: Bytes, rest: seq<Open>)
      requires b == Buffer(sa, open) && Poppable(b) && |spare| == 2
      ensures Buffer(c, rest) == Popped(b, spare)
    {
      var start, reserved := open[|open| - 1].start, open[|open| - 1].size;
      rest := open[..|open| - 1];
      var len := |sa| - (start + 1 + reserved);
      var lenLen := LenLen(len);
      Cases(b, spare, start, reserved, len);
      if lenLen > reserved {
        c := Shift(sa, start, len, lenLen, spare);
      } else {
        c := Patched(sa, start + 1, LengthOf(len, reserved));
      }
    }

    /** Whatever tree the buffer stands for, the innermost open sequence and all its contents are gone from it. */
    method AbortSequence() returns (r: Status)
      requires open != [] && Top(State()).start <= |sa|
      modifies this
      ensures r == Invalid && State() == AbortBuffer(old(State()))
      ensures forall f :: Represents(f, old(State())) ==> f.open != [] && Represents(Below(f), State())
    {
      AbortCloses(State());
      var start := open[|open| - 1].start;
      open := open[..|open| - 1];
      sa := sa[..|sa| - (|sa| - start)];
      return Invalid;
    }

    method EncodeNull() returns (r: Status)
      modifies `sa
      ensures r == Fine && sa == old(sa) + Encode(Prim(TAG_NULL, []))
    {
      sa := sa + [TAG_NULL, 0];
      assert [TAG_NULL, 0] == [TAG_NULL] + LengthOf(0, 1) + [];
      return Fine;
    }

    method EncodeOctetString(tag: Byte, s: Bytes) returns (r: Status)
      modifies `sa
      ensures r == if |s| <= LEN_3_MAX then Fine else TooBig
      ensures sa == if r == Fine then old(sa) + Encode(Prim(tag, s)) else old(sa)
    {
      var lenLen := LenLen(|s|);
      if lenLen < 0 {
        return TooBig;
      }
      sa := sa + ([tag] + LengthOf(|s|, lenLen) + s);
      return Fine;
    }

    /** The value is any `int64_t` (asSigned) or `uint64_t` (not asSigned). */
    method EncodeInteger(tag: Byte, v: int, asSigned: bool) returns (r: Status)
      requires if asSigned then -0x8000_0000_0000_0000 <= v < 0x8000_0000_0000_0000 else 0 <= v < 0x1_0000_0000_0000_0000
      modifies `sa
      ensures r == Fine && sa == old(sa) + Encode(Prim(tag, IntegerBytes(v)))
    {
      IntegerFits(v);
      var flip := asSigned && v < 0;
      var x := if flip then -v - 1 else v;
      var storage := IntegerStorage(tag, x, flip);
      ghost var body := IntegerBytes(v);
      assert storage == [tag] + LengthOf(|body|, 1) + body;
      sa := sa + storage;
      return Fine;
    }

    lemma MagnitudeFront(m: Bytes, x: nat, n: nat)
      requires n <= |m| && Magnitude(x) == m[..n] && x > 0x7F
      ensures n > 1 && Magnitude(x / 256) == m[..n - 1] && Magnitude(x / 256)[|Magnitude(x / 256)| - 1] == x / 256 % 256
    {
      assert Magnitude(x)[..n - 1] == m[..n - 1];
    }

    lemma Assembled(storage: Bytes, tag: Byte, m: Bytes, flip: bool)
      requires |storage| == |m| + 2 && storage[0] == tag && storage[1] == |m|
      requires forall j :: 2 <= j < |storage| ==> storage[j] == FlipIf(m[j - 2], flip)
      ensures storage == [tag, |m|] + (if flip then Flip(m) else m)
    {
    }

    /** First loop of `encode_integer`: tag, length and value octets. */
    method IntegerLength(value: nat) returns (len: nat)
      ensures len == |Magnitude(value)| + 2
    {
      var x2 := value;
      len := 3;
      while x2 > 0x7F
        invariant |Magnitude(value)| + 2 == len - 1 + |Magnitude(x2)|
        decreases x2
      {
        len, x2 := len + 1, x2 / 256;
      }
    }

    /** Second loop of `encode_integer`: the octets are filled from the end. */
    method IntegerStorage(tag: Byte, value: nat, flip: bool) returns (storage: Bytes)
      requires |Magnitude(value)| <= 9
      ensures storage == [tag, |Magnitude(value)|] + (if flip then Flip(Magnitude(value)) else Magnitude(value))
    {
      ghost var m := Magnitude(value);
      var len := IntegerLength(value);
      storage := seq(len, _ => 0);
      storage := storage[0 := tag][1 := len - 2];
      var x := value;
      len := len - 1;
      storage := storage[len := FlipIf(x % 256, flip)];
      while x > 0x7F
        invariant 2 <= len < |storage| == |m| + 2
        invariant Magnitude(x) == m[..len - 1]
        invariant storage[0] == tag && storage[1] == |m|
        invariant forall j :: len <= j < |storage| ==> storage[j] == FlipIf(m[j - 2], flip)
        decreases x
      {
        MagnitudeFront(m, x, len - 1);
        x := x / 256;
        len := len - 1;
        storage := storage[len := FlipIf(x % 256, flip)];
      }
      Assembled(storage, tag, m, flip);
    }

    method EncodeOid(oid: Oid) returns (r: Status)
      modifies `sa
      ensures r == Invalid <==> !OidAccepted(oid)
      ensures r == TooBig <==> OidAccepted(oid) && |OidBytes(oid)| > LEN_3_MAX
      ensures sa == if r == Fine then old(sa) + Encode(Prim(TAG_OID, OidBytes(oid))) else old(sa)
    {
      if |oid| < 2 || oid[0] > 2 || oid[1] >= 40 {
        return Invalid;
      }
      var len := OidLength(oid);
      var lenLen := LenLen(len);
      if lenLen < 0 {
        return TooBig;
      }
      var body := OidContents(oid);
      assert |body| == len;
      sa := sa + ([TAG_OID] + LengthOf(len, lenLen) + body);
      return Fine;
    }
  }

  /** First loop of `encode_snmp_oid`: the length, before anything is written. */
  method OidLength(oid: Oid) returns (len: nat)
    requires OidAccepted(oid)
    ensures len == |OidBytes(oid)|
  {
    len := 1;
    for i := 2 to |oid|
      invariant len == 1 + |Components(oid[2..i])|
    {
      OneMoreComponent(oid, i);
      len := len + ComponentSize(oid[i]);
    }
    assert oid[2..|oid|] == oid[2..];
  }

  /** Second loop of `encode_snmp_oid`. */
  method OidContents(oid: Oid) returns (body: Bytes)
    requires OidAccepted(oid)
    ensures body == OidBytes(oid)
  {
    body := [oid[0] * 40 + oid[1]];
    for i := 2 to |oid|
      invariant body == [oid[0] * 40 + oid[1]] + Components(oid[2..i])
    {
      OneMoreComponent(oid, i);
      Associate([oid[0] * 40 + oid[1]], Components(oid[2..i]), Component(oid[i]));
      body := body + Component(oid[i]);
    }
    assert oid[2..|oid|] == oid[2..];
  }

  lemma OneMoreComponent(oid: Oid, i: nat)
    requires 2 <= i < |oid|
    ensures Components(oid[2..i + 1]) == Components(oid[2..i]) + Component(oid[i])
    ensures |Component(oid[i])| == ComponentSize(oid[i])
  {
    assert oid[2..i + 1][..i - 2] == oid[2..i];
  }

  function Patched(b: Bytes, at: nat, p: Bytes): Bytes
    requires at + |p| <= |b|
  {
    b[..at] + p + b[at + |p|..]
  }

  /** memmove within the buffer */
  function Move(b: Bytes, dst: nat, src: nat, len: nat): Bytes
    requires dst + len <= |b| && src + len <= |b|
  {
    b[..dst] + b[src..src + len] + b[dst + len..]
  }

  /** `pop_sequence` with one octet reserved and `size` needed: extend, move, patch. */
  function Shift(b: Bytes, start: nat, len: nat, size: nat, spare: Bytes): Bytes
    requires |b| == start + 2 + len && size in {2, 3} && |spare| == 2
  {
    var d := b + spare[..size - 1];
    Patched(Move(d, start + size, start + 1, len), start + 1, LengthOf(len, size))
  }

  /** Extending and moving leaves the contents, without their last octet, behind the length octets. */
  lemma MovedTail(b: Bytes, start: nat, len: nat, size: nat, spare: Bytes)
    requires |b| == start + 2 + len && size in {2, 3} && |spare| == 2 && len > 0
    ensures var m := Move(b + spare[..size - 1], start + size, start + 1, len);
            && |m| == start + 1 + size + len
            && m[..start + 1] == b[..start + 1]
            && m[start + 1 + size..] == b[start + 2..start + 1 + len] + [spare[size - 2]]
  {
    var d := b + spare[..size - 1];
    var m := Move(d, start + size, start + 1, len);
    assert d[start + 1..start + 1 + len] == b[start + 1..start + 1 + len];
    assert d[start + size + len..] == [spare[size - 2]];
    assert m[..start + size] == d[..start + size];
    assert m[start + 1 + size..] == d[start + 1..start + 1 + len][1..] + d[start + size + len..];
  }

  lemma Shifted(b: Bytes, start: nat, len: nat, size: nat, spare: Bytes)
    requires |b| == start + 2 + len && size in {2, 3} && |spare| == 2 && len > 0
    ensures var right := b[..start + 1] + LengthOf(len, size) + b[start + 2..];
            Shift(b, start, len, size, spare) == right[|right| - 1 := spare[size - 2]]
  {
    MovedTail(b, start, len, size, spare);
    LastReplaced(b[..start + 1] + LengthOf(len, size), b[start + 2..], spare[size - 2]);
    assert b[start + 2..][..len - 1] == b[start + 2..start + 1 + len];
  }

  lemma LastReplaced(a: Bytes, c: Bytes, x: Byte)
    requires c != []
    ensures (a + c)[|a + c| - 1 := x] == a + (c[..|c| - 1] + [x])
  {
  }

  /** So a sequence that outgrows its reserved octet is encoded correctly only if stray memory matches its last octet. */
  lemma ShiftExact(b: Bytes, start: nat, len: nat, size: nat, spare: Bytes)
    requires |b| == start + 2 + len && size in {2, 3} && |spare| == 2 && len > 0
    ensures Shift(b, start, len, size, spare) == b[..start + 1] + LengthOf(len, size) + b[start + 2..]
            <==> spare[size - 2] == b[|b| - 1]
  {
    Shifted(b, start, len, size, spare);
    var right := b[..start + 1] + LengthOf(len, size) + b[start + 2..];
    assert right[|right| - 1] == b[|b| - 1];
    assert right[|right| - 1 := spare[size - 2]][|right| - 1] == spare[size - 2];
  }
}
