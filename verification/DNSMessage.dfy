/**
  The DNS codec of NAT-PT: ip6_natpt/package/dnsmessage.cc (section 4.1 of RFC 1035).  C strings are sequences of bytes
  without a NUL.
 */
module DNSCodec {
  import opened Common

  type Nibble = x: int | 0 <= x < 16
  type Bit = x: int | 0 <= x < 2

  const DOT: Byte := 46
  const MAX_LABEL := 63
  const TYPE_A := 1
  const TYPE_AAAA := 28
  const CLASS_IN := 1

  // --- Header ------------------------------------------------------------------------------------

  datatype Header = Header(id: U16, qr: Bit, opcode: Nibble, aa: Bit, tc: Bit, rd: Bit, ra: Bit, rcode: Nibble,
                           qdcount: U16, ancount: U16, nscount: U16, arcount: U16)

  function PackU16(x: U16): (r: Bytes)
    ensures |r| == 2
  {
    [x / 256, x % 256]
  }

  function ReadU16(b: Bytes, at: nat): U16
    requires at + 2 <= |b|
  {
    b[at] as int * 256 + b[at + 1]
  }

  function Flags(h: Header): U16 {
    h.qr * 32768 + h.opcode * 2048 + h.aa * 1024 + h.tc * 512 + h.rd * 256 + h.ra * 128 + h.rcode
  }

  function PackHeader(h: Header): (r: Bytes)
    ensures |r| == 12
  {
    PackU16(h.id) + PackU16(Flags(h)) + PackU16(h.qdcount) + PackU16(h.ancount) + PackU16(h.nscount) + PackU16(h.arcount)
  }

  function UnpackHeader(b: Bytes): Option<Header> {
    if |b| < 12 then None else
    var t := ReadU16(b, 2);
    Some(Header(ReadU16(b, 0), t / 32768 % 2, t / 2048 % 16, t / 1024 % 2, t / 512 % 2, t / 256 % 2, t / 128 % 2, t % 16,
                ReadU16(b, 4), ReadU16(b, 6), ReadU16(b, 8), ReadU16(b, 10)))
  }

  lemma FlagsRoundTrip(h: Header)
    ensures var t := Flags(h);
            && t / 32768 % 2 == h.qr
            && t / 2048 % 16 == h.opcode
            && t / 1024 % 2 == h.aa
            && t / 512 % 2 == h.tc
            && t / 256 % 2 == h.rd
            && t / 128 % 2 == h.ra
            && t % 16 == h.rcode
  {
    var high := ((h.qr * 16 + h.opcode) * 2 + h.aa) * 2 + h.tc;
    var low := h.rd * 256 + h.ra * 128 + h.rcode;
    assert Flags(h) == high * 512 + low;
    HighFlags(Flags(h), h.qr, h.opcode, h.aa, h.tc, low);
    LowFlags(Flags(h), high, h.rd, h.ra, h.rcode);
  }

  lemma HighFlags(t: int, qr: Bit, opcode: Nibble, aa: Bit, tc: Bit, low: int)
    requires t == (((qr * 16 + opcode) * 2 + aa) * 2 + tc) * 512 + low && 0 <= low < 512
    ensures t / 32768 % 2 == qr && t / 2048 % 16 == opcode && t / 1024 % 2 == aa && t / 512 % 2 == tc
  {
    Peel(t, (qr * 16 + opcode) * 2 + aa, tc, 512, low);
    Peel(t, qr * 16 + opcode, aa, 1024, tc * 512 + low);
    TakeOpcode(t, qr, opcode, aa * 1024 + tc * 512 + low);
  }

  lemma TakeOpcode(t: int, qr: Bit, opcode: Nibble, low: int)
    requires t == (qr * 16 + opcode) * 2048 + low && 0 <= low < 2048
    ensures t / 32768 % 2 == qr && t / 2048 % 16 == opcode
  {
    Quotient(qr * 16 + opcode, low, 2048);
    Quotient(qr, opcode, 16);
    Quotient(qr, opcode * 2048 + low, 32768);
  }

  lemma LowFlags(t: int, high: nat, rd: Bit, ra: Bit, rcode: Nibble)
    requires t == high * 512 + rd * 256 + ra * 128 + rcode
    ensures t / 256 % 2 == rd && t / 128 % 2 == ra && t % 16 == rcode
  {
    Peel(t, high, rd, 256, ra * 128 + rcode);
    Peel(t, high * 2 + rd, ra, 128, rcode);
    Quotient((high * 4 + rd * 2 + ra) * 8, rcode, 16);
  }

  /** The bit of weight m. */
  lemma Peel(t: int, q: nat, bit: Bit, m: int, low: int)
    requires t == (q * 2 + bit) * m + low && 0 <= low < m
    ensures t / m % 2 == bit
  {
    Quotient(q * 2 + bit, low, m);
    Quotient(q, bit, 2);
  }

  lemma Quotient(q: int, r: int, m: int)
    requires 0 <= r < m
    ensures (q * m + r) / m == q && (q * m + r) % m == r
  {
    var (d, x) := ((q * m + r) / m - q, (q * m + r) % m);
    assert x == r - d * m;
    Small(d, m, r - x);
  }

  lemma Small(d: int, m: int, x: int)
    requires x == d * m && -m < x < m
    ensures d == 0
  {
  }

  /** Every header comes back, whatever follows it. */
  lemma HeaderRoundTrip(h: Header, rest: Bytes)
    ensures UnpackHeader(PackHeader(h) + rest) == Some(h)
  {
    var b := PackHeader(h) + rest;
    FlagsRoundTrip(h);
    assert b[..12] == PackHeader(h);
    assert ReadU16(b, 0) == h.id && ReadU16(b, 2) == Flags(h);
    assert ReadU16(b, 4) == h.qdcount && ReadU16(b, 6) == h.ancount;
    assert ReadU16(b, 8) == h.nscount && ReadU16(b, 10) == h.arcount;
  }

  /** The twelve octets of section 4.1.1 of RFC 1035: numbers with the high octet first, and the two octets of flags. */
  lemma HeaderLayout(h: Header)
    ensures var p := PackHeader(h);
            && p[0] as int * 256 + p[1] == h.id
            && p[2] == h.qr * 128 + h.opcode * 8 + h.aa * 4 + h.tc * 2 + h.rd
            && p[3] == h.ra * 128 + h.rcode
            && p[4] as int * 256 + p[5] == h.qdcount && p[6] as int * 256 + p[7] == h.ancount
            && p[8] as int * 256 + p[9] == h.nscount && p[10] as int * 256 + p[11] == h.arcount
  {
    Quotient(h.qr * 128 + h.opcode * 8 + h.aa * 4 + h.tc * 2 + h.rd, h.ra * 128 + h.rcode, 256);
  }

  // --- Names -----------------------------------------------------------------------------------------

  /** Where the first separator of s is, or its length. */
  function Span(s: Bytes, sep: Byte): (k: nat)
    ensures k <= |s|
    ensures sep !in s[..k]
    ensures k < |s| ==> s[k] == sep
  {
    if s == [] || s[0] == sep then 0
    else
      var k := 1 + Span(s[1..], sep);
      assert s[..k] == [s[0]] + s[1..][..k - 1];
      k
  }

  /** The tokens `strtok` yields: empty ones are skipped. */
  function Tokens(s: Bytes, sep: Byte): (ts: seq<Bytes>)
    ensures forall i :: 0 <= i < |ts| ==> ts[i] != [] && sep !in ts[i]
    decreases |s|
  {
    if s == [] then []
    else if s[0] == sep then Tokens(s[1..], sep)
    else [s[..Span(s, sep)]] + Tokens(s[Span(s, sep)..], sep)
  }

  function Clip(lab: Bytes): (r: Bytes)
    ensures |r| <= MAX_LABEL && r <= lab && (|lab| <= MAX_LABEL ==> r == lab)
  {
    if |lab| > MAX_LABEL then lab[..MAX_LABEL] else lab
  }

  function PackLabel(lab: Bytes): Bytes {
    [|Clip(lab)|] + Clip(lab)
  }

  function PackLabels(labels: seq<Bytes>): Bytes {
    if labels == [] then [] else PackLabel(labels[0]) + PackLabels(labels[1..])
  }

  function PackName(name: Bytes): Bytes {
    PackLabels(Tokens(name, DOT)) + [0]
  }

  function PackQuestion(name: Bytes, qtype: U16, qclass: U16): Bytes {
    PackName(name) + PackU16(qtype) + PackU16(qclass)
  }

  /** The message `rfc1035BuildAQuery` and `rfc1035BuildAAAAQuery` put together. */
  function Query(hostname: Bytes, qtype: U16, id: U16): Bytes {
    PackHeader(Header(id, 0, 0, 0, 0, 1, 0, 0, 1, 0, 0, 0)) + PackQuestion(hostname, qtype, CLASS_IN)
  }

  /** `Fault`: an assertion of the code fails, it leaves its buffers, or it follows more pointers than allowed. */
  datatype Outcome = Name(name: Bytes, off: nat) | BadName | Fault

  /**
    `rfc1035NameUnpack`: `acc` is what the name buffer of ns bytes holds, its first `base` bytes from callers up the
    recursion; `jumps` bounds the compression pointers followed.
   */
  function Unpack(b: Bytes, off: nat, ns: nat, acc: Bytes, base: nat, jumps: nat): Outcome
    requires base <= |acc|
    decreases jumps, |b| - off
  {
    if base >= ns || off >= |b| then Fault
    else if b[off] > 191 then
      if off + 2 >= |b| then BadName else
      var ptr := ReadU16(b, off) % 0x4000;
      if ptr >= |b| then BadName
      else if jumps == 0 then Fault
      else
        match Unpack(b, ptr, ns, acc, |acc|, jumps - 1)
        case Name(n, _) => Name(n, off + 2)
        case BadName => BadName
        case Fault => Fault
    else if b[off] > MAX_LABEL then BadName
    else if b[off] == 0 then if acc == [] then Fault else Name(acc[..|acc| - 1], off + 1)
    else
      var len := if b[off] > ns - base - 1 then ns - base - 1 else b[off];
      if off + 1 + len > |b| then BadName
      else if |acc| + len + 1 > ns then Fault
      else Unpack(b, off + 1 + len, ns, acc + b[off + 1..off + 1 + len] + [DOT], base, jumps)
  }

  // --- Round trip --------------------------------------------------------------------------------------

  /** Labels, cut to 63 bytes, each followed by a dot. */
  function Dotted(labels: seq<Bytes>): Bytes {
    if labels == [] then [] else Clip(labels[0]) + [DOT] + Dotted(labels[1..])
  }

  function Joined(labels: seq<Bytes>): Bytes {
    if labels == [] then [] else if |labels| == 1 then Clip(labels[0]) else Clip(labels[0]) + [DOT] + Joined(labels[1..])
  }

  lemma {:induction false} JoinedDotted(labels: seq<Bytes>)
    requires labels != []
    ensures Dotted(labels) == Joined(labels) + [DOT]
  {
    if |labels| == 1 {
      assert labels[1..] == [];
    } else {
      JoinedDotted(labels[1..]);
    }
  }

  /** Bytes p of the message at off. */
  predicate At(b: Bytes, off: nat, p: Bytes) {
    off + |p| <= |b| && b[off..off + |p|] == p
  }

  lemma AtSplit(b: Bytes, off: nat, p: Bytes, q: Bytes)
    requires At(b, off, p + q)
    ensures At(b, off, p) && At(b, off + |p|, q)
  {
    assert b[off..off + |p|] == (p + q)[..|p|] == p;
    assert b[off + |p|..off + |p| + |q|] == (p + q)[|p|..] == q;
  }

  predicate NonEmpty(labels: seq<Bytes>) {
    forall i :: 0 <= i < |labels| ==> labels[i] != []
  }

  /** Unpacking one packed label. */
  lemma UnpackLabel(b: Bytes, off: nat, ns: nat, acc: Bytes, jumps: nat, lab: Bytes)
    requires lab != [] && At(b, off, PackLabel(lab))
    requires |acc| + |Clip(lab)| + 1 <= ns || ns > MAX_LABEL
    ensures Unpack(b, off, ns, acc, 0, jumps) ==
            if |acc| + |Clip(lab)| + 1 > ns then Fault
            else Unpack(b, off + 1 + |Clip(lab)|, ns, acc + (Clip(lab) + [DOT]), 0, jumps)
  {
    var c := Clip(lab);
    AtSplit(b, off, [|c|], c);
    assert b[off] == b[off..off + 1][0] == |c|;
    if |acc| + |c| + 1 <= ns {
      assert acc + c + [DOT] == acc + (c + [DOT]);
    }
  }

  /** What becomes of the name buffer: the last dot makes way for the terminator. */
  function Finish(total: Bytes, ns: nat, off: nat): Outcome
    requires total != []
  {
    if |total| > ns then Fault else Name(total[..|total| - 1], off)
  }

  lemma UnpackEnd(b: Bytes, off: nat, ns: nat, acc: Bytes, jumps: nat)
    requires acc != [] && |acc| <= ns && At(b, off, [0])
    ensures Unpack(b, off, ns, acc, 0, jumps) == Finish(acc, ns, off + 1)
  {
    assert b[off] == b[off..off + 1][0] == 0;
  }

  lemma SplitBefore(b: Bytes, off: nat, p: Bytes, q: Bytes, all: Bytes)
    requires all == p + q && At(b, off, all + [0])
    ensures At(b, off, p) && At(b, off + |p|, q + [0])
  {
    Associate(p, q, [0]);
    AtSplit(b, off, p, q + [0]);
  }

  lemma PackedCons(labels: seq<Bytes>, p: Bytes, q: Bytes)
    requires labels != [] && p == PackLabel(labels[0]) && q == PackLabels(labels[1..])
    ensures PackLabels(labels) == p + q && |p| == 1 + |Clip(labels[0])|
  {
  }

  lemma UnpackStep(b: Bytes, off: nat, ns: nat, acc: Bytes, jumps: nat, lab: Bytes, total: Bytes, end: nat)
    requires lab != [] && At(b, off, PackLabel(lab)) && (ns > MAX_LABEL || |total| <= ns)
    requires acc + (Clip(lab) + [DOT]) <= total
    requires var acc' := acc + (Clip(lab) + [DOT]);
             |acc'| <= ns ==> Unpack(b, off + 1 + |Clip(lab)|, ns, acc', 0, jumps) == Finish(total, ns, end)
    ensures Unpack(b, off, ns, acc, 0, jumps) == Finish(total, ns, end)
  {
    UnpackLabel(b, off, ns, acc, jumps, lab);
  }

  /** The packed labels stand at off, and the name ends at `end`. */
  predicate PackedAt(b: Bytes, off: nat, labels: seq<Bytes>, end: nat)
    decreases |labels|
  {
    if labels == [] then At(b, off, [0]) && end == off + 1
    else At(b, off, PackLabel(labels[0])) && PackedAt(b, off + 1 + |Clip(labels[0])|, labels[1..], end)
  }

  lemma {:induction false} PackedStands(b: Bytes, off: nat, labels: seq<Bytes>)
    requires At(b, off, PackLabels(labels) + [0])
    ensures PackedAt(b, off, labels, off + |PackLabels(labels)| + 1)
    decreases |labels|
  {
    if labels == [] {
      assert PackLabels(labels) + [0] == [0];
    } else {
      var (p, q) := (PackLabel(labels[0]), PackLabels(labels[1..]));
      PackedCons(labels, p, q);
      SplitBefore(b, off, p, q, PackLabels(labels));
      PackedStands(b, off + 1 + |Clip(labels[0])|, labels[1..]);
    }
  }

  /** What the name buffer holds once the labels are appended to acc. */
  function Appended(acc: Bytes, labels: seq<Bytes>): (total: Bytes)
    ensures acc <= total && (labels != [] ==> total != [])
    decreases |labels|
  {
    if labels == [] then acc else
    var acc' := acc + (Clip(labels[0]) + [DOT]);
    assert acc <= acc';
    Appended(acc', labels[1..])
  }

  lemma {:induction false} AppendedDotted(acc: Bytes, labels: seq<Bytes>)
    ensures Appended(acc, labels) == acc + Dotted(labels)
    decreases |labels|
  {
    if labels == [] {
      assert acc + Dotted(labels) == acc;
    } else {
      var l := Clip(labels[0]) + [DOT];
      AppendedDotted(acc + l, labels[1..]);
      assert (acc + l) + Dotted(labels[1..]) == acc + (l + Dotted(labels[1..]));
    }
  }

  /** A packed name unpacks to its labels joined by dots if they fit the name buffer, and not otherwise. */
  lemma {:induction false} UnpackLabels(b: Bytes, off: nat, ns: nat, acc: Bytes, jumps: nat, labels: seq<Bytes>, end: nat)
    requires NonEmpty(labels) && |acc| <= ns && Appended(acc, labels) != []
    requires ns > MAX_LABEL || |Appended(acc, labels)| <= ns
    requires PackedAt(b, off, labels, end)
    ensures Unpack(b, off, ns, acc, 0, jumps) == Finish(Appended(acc, labels), ns, end)
    decreases |labels|
  {
    if labels == [] {
      UnpackEnd(b, off, ns, acc, jumps);
    } else {
      var (lab, rest) := (labels[0], labels[1..]);
      var acc' := acc + (Clip(lab) + [DOT]);
      if |acc'| <= ns {
        UnpackLabels(b, off + 1 + |Clip(lab)|, ns, acc', jumps, rest, end);
      }
      UnpackStep(b, off, ns, acc, jumps, lab, Appended(acc', rest), end);
    }
  }

  /** The name a query for `hostname` carries: empty labels gone, long ones cut. */
  function Canonical(hostname: Bytes): Bytes {
    Joined(Tokens(hostname, DOT))
  }

  predicate IsAlphanumeric(c: Byte) {
    48 <= c <= 57 || 65 <= c <= 90 || 97 <= c <= 122
  }

  lemma FirstToken(hostname: Bytes)
    requires hostname != [] && IsAlphanumeric(hostname[0])
    ensures Tokens(hostname, DOT) != []
  {
  }

  /** A name that is returned fits the name buffer, terminator included. */
  lemma {:induction false} UnpackFits(b: Bytes, off: nat, ns: nat, acc: Bytes, base: nat, jumps: nat)
    requires base <= |acc| <= ns
    ensures var r := Unpack(b, off, ns, acc, base, jumps); r.Name? ==> |r.name| + 1 <= ns
    decreases jumps, |b| - off
  {
    if base >= ns || off >= |b| {
    } else if b[off] > 191 {
      if off + 2 < |b| && ReadU16(b, off) % 0x4000 < |b| && jumps > 0 {
        UnpackFits(b, ReadU16(b, off) % 0x4000, ns, acc, |acc|, jumps - 1);
      }
    } else if 0 < b[off] <= MAX_LABEL {
      var len := if b[off] > ns - base - 1 then ns - base - 1 else b[off];
      if off + 1 + len <= |b| && |acc| + len + 1 <= ns {
        UnpackFits(b, off + 1 + len, ns, acc + b[off + 1..off + 1 + len] + [DOT], base, jumps);
      }
    }
  }

  /** Names the builders accept; for the empty one `strchr` finds the terminator of its own table. */
  predicate Accepted(hostname: Bytes) {
    hostname == [] || IsAlphanumeric(hostname[0])
  }

  /**
    Unpacking a built query gives back the identifier and the type, and the name up to the end of the message exactly
    when it is not empty and fits the caller's buffer, terminator included.
   */
  lemma QueryRoundTrip(hostname: Bytes, qtype: U16, id: U16, ns: nat, jumps: nat)
    requires Accepted(hostname)
    ensures var m := Query(hostname, qtype, id);
            && UnpackHeader(m) == Some(Header(id, 0, 0, 0, 0, 1, 0, 0, 1, 0, 0, 0))
            && ReadU16(m, |m| - 4) == qtype
            && ReadU16(m, |m| - 2) == CLASS_IN
            && (Unpack(m, 12, ns, [], 0, jumps) == Name(Canonical(hostname), |m| - 4) <==>
                hostname != [] && |Canonical(hostname)| + 1 <= ns)
            && (hostname == [] || (ns > MAX_LABEL && |Canonical(hostname)| + 1 > ns) ==>
                Unpack(m, 12, ns, [], 0, jumps) == Fault)
  {
    HeaderRoundTrip(Header(id, 0, 0, 0, 0, 1, 0, 0, 1, 0, 0, 0), PackQuestion(hostname, qtype, CLASS_IN));
    QueryLayout(hostname, qtype, id);
    if hostname == [] {
      EmptyName(Query(hostname, qtype, id), 12, ns, jumps);
    } else {
      FirstToken(hostname);
      NameComesBack(Query(hostname, qtype, id), 12, Tokens(hostname, DOT), ns, jumps);
    }
  }

  /** Unpacking the empty name puts its terminator in front of the name buffer. */
  lemma EmptyName(m: Bytes, off: nat, ns: nat, jumps: nat)
    requires At(m, off, PackLabels(Tokens([], DOT)) + [0])
    ensures Unpack(m, off, ns, [], 0, jumps) == Fault
  {
    assert PackLabels(Tokens([], DOT)) + [0] == [0];
    assert m[off] == m[off..off + 1][0] == 0;
  }

  /** Where a query keeps its name, type and class. */
  lemma QueryLayout(hostname: Bytes, qtype: U16, id: U16)
    ensures var m := Query(hostname, qtype, id);
            && At(m, 12, PackLabels(Tokens(hostname, DOT)) + [0])
            && |m| == 12 + |PackLabels(Tokens(hostname, DOT))| + 5
            && ReadU16(m, |m| - 4) == qtype
            && ReadU16(m, |m| - 2) == CLASS_IN
  {
    var m := Query(hostname, qtype, id);
    var (head, name) := (m[..12], PackName(hostname));
    var tail := PackU16(qtype) + PackU16(CLASS_IN);
    assert m == head + (name + tail) && m[|m| - 4..] == tail;
    assert m[12..12 + |name|] == name;
    assert m[|m| - 4] == tail[0] && m[|m| - 3] == tail[1] && m[|m| - 2] == tail[2] && m[|m| - 1] == tail[3];
  }

  /** A packed name is returned exactly when it fits the name buffer, whatever the size of the buffer. */
  lemma NameComesBack(m: Bytes, off: nat, labels: seq<Bytes>, ns: nat, jumps: nat)
    requires NonEmpty(labels) && labels != [] && At(m, off, PackLabels(labels) + [0])
    ensures var r := Unpack(m, off, ns, [], 0, jumps);
            && (r == Name(Joined(labels), off + |PackLabels(labels)| + 1) <==> |Joined(labels)| + 1 <= ns)
            && (ns > MAX_LABEL && |Joined(labels)| + 1 > ns ==> r == Fault)
  {
    UnpackFits(m, off, ns, [], 0, jumps);
    if ns > MAX_LABEL || |Joined(labels)| + 1 <= ns {
      NameReturned(m, off, labels, ns, jumps);
    }
  }

  lemma NameReturned(m: Bytes, off: nat, labels: seq<Bytes>, ns: nat, jumps: nat)
    requires NonEmpty(labels) && labels != [] && At(m, off, PackLabels(labels) + [0])
    requires ns > MAX_LABEL || |Joined(labels)| + 1 <= ns
    ensures Unpack(m, off, ns, [], 0, jumps) ==
            if |Joined(labels)| + 1 > ns then Fault else Name(Joined(labels), off + |PackLabels(labels)| + 1)
  {
    JoinedDotted(labels);
    NameFrom(m, off, labels, ns, jumps, Joined(labels), Dotted(labels));
  }

  lemma NameFrom(m: Bytes, off: nat, labels: seq<Bytes>, ns: nat, jumps: nat, name: Bytes, total: Bytes)
    requires NonEmpty(labels) && At(m, off, PackLabels(labels) + [0])
    requires total == Dotted(labels) && total == name + [DOT] && (ns > MAX_LABEL || |total| <= ns)
    ensures Unpack(m, off, ns, [], 0, jumps) ==
            if |name| + 1 > ns then Fault else Name(name, off + |PackLabels(labels)| + 1)
  {
    FromEmpty(m, off, labels, ns, jumps, total);
    FinishDotted(name, ns, off + |PackLabels(labels)| + 1);
  }

  lemma FromEmpty(m: Bytes, off: nat, labels: seq<Bytes>, ns: nat, jumps: nat, total: Bytes)
    requires NonEmpty(labels) && At(m, off, PackLabels(labels) + [0])
    requires total == Dotted(labels) && total != [] && (ns > MAX_LABEL || |total| <= ns)
    ensures Unpack(m, off, ns, [], 0, jumps) == Finish(total, ns, off + |PackLabels(labels)| + 1)
  {
    AppendedDotted([], labels);
    assert [] + Dotted(labels) == total;
    PackedStands(m, off, labels);
    FromNothing(m, off, labels, ns, jumps, total, [], off + |PackLabels(labels)| + 1);
  }

  lemma FromNothing(m: Bytes, off: nat, labels: seq<Bytes>, ns: nat, jumps: nat, total: Bytes, acc: Bytes, end: nat)
    requires NonEmpty(labels) && PackedAt(m, off, labels, end) && acc == [] && total == Appended(acc, labels)
    requires total != [] && (ns > MAX_LABEL || |total| <= ns)
    ensures Unpack(m, off, ns, acc, 0, jumps) == Finish(total, ns, end)
  {
    UnpackLabels(m, off, ns, acc, jumps, labels, end);
  }

  lemma FinishDotted(name: Bytes, ns: nat, off: nat)
    ensures Finish(name + [DOT], ns, off) == if |name| + 1 > ns then Fault else Name(name, off)
  {
  }

  // --- Compressed names ----------------------------------------------------------------------------------

  predicate IsPointer(b: Bytes, off: nat) {
    off + 2 < |b| && b[off] > 191
  }

  function Target(b: Bytes, off: nat): nat
    requires IsPointer(b, off)
  {
    ReadU16(b, off) % 0x4000
  }

  /**
    The message spells the labels from off on, with at most `jumps` compression pointers (section 4.1.4 of RFC 1035); if
    so, the offset behind the terminator or the first pointer.
   */
  function Spelled(b: Bytes, off: nat, labels: seq<Bytes>, jumps: nat): Option<nat>
    decreases jumps, |labels|
  {
    if IsPointer(b, off) then
      if jumps > 0 && Spelled(b, Target(b, off), labels, jumps - 1).Some? then Some(off + 2) else None
    else if labels == [] then
      if At(b, off, [0]) then Some(off + 1) else None
    else if At(b, off, PackLabel(labels[0])) then Spelled(b, off + 1 + |Clip(labels[0])|, labels[1..], jumps)
    else None
  }

  /** A pointer of the name leads to its terminator alone, with no label in between. */
  predicate EndsAtJump(b: Bytes, off: nat, labels: seq<Bytes>, jumps: nat)
    decreases jumps, |labels|
  {
    if IsPointer(b, off) then jumps > 0 && (labels == [] || EndsAtJump(b, Target(b, off), labels, jumps - 1))
    else labels != [] && EndsAtJump(b, off + 1 + |Clip(labels[0])|, labels[1..], jumps)
  }

  predicate Returned(b: Bytes, off: nat, ns: nat, acc: Bytes, base: nat, jumps: nat, name: Bytes, end: nat)
    requires base <= |acc|
  {
    Unpack(b, off, ns, acc, base, jumps) == Name(name, end)
  }

  lemma JumpReturns(b: Bytes, off: nat, ns: nat, acc: Bytes, base: nat, jumps: nat, name: Bytes, to: nat, e: nat)
    requires IsPointer(b, off) && to == Target(b, off) < |b| && base <= |acc| && base < ns && jumps > 0
    requires Returned(b, to, ns, acc, |acc|, jumps - 1, name, e)
    ensures Returned(b, off, ns, acc, base, jumps, name, off + 2)
  {
  }

  lemma LabelReturns(b: Bytes, off: nat, ns: nat, acc: Bytes, base: nat, jumps: nat, lab: Bytes, acc': Bytes,
                     name: Bytes, end: nat)
    requires lab != [] && At(b, off, PackLabel(lab)) && base <= |acc| && acc' == acc + (Clip(lab) + [DOT]) && |acc'| <= ns
    requires Returned(b, off + 1 + |Clip(lab)|, ns, acc', base, jumps, name, end)
    ensures Returned(b, off, ns, acc, base, jumps, name, end)
  {
    var c := Clip(lab);
    AtSplit(b, off, [|c|], c);
    assert b[off] == b[off..off + 1][0] == |c|;
    assert acc + c + [DOT] == acc + (c + [DOT]);
  }

  lemma EndReturns(b: Bytes, off: nat, ns: nat, acc: Bytes, base: nat, jumps: nat, name: Bytes)
    requires acc == name + [DOT] && At(b, off, [0]) && base <= |acc| && base < ns
    ensures Returned(b, off, ns, acc, base, jumps, name, off + 1)
  {
    assert b[off] == b[off..off + 1][0] == 0;
  }

  /** A pointer that is part of a spelled name. */
  lemma SpelledJump(b: Bytes, off: nat, labels: seq<Bytes>, jumps: nat, end: nat, tight: bool) returns (to: nat, e: nat)
    requires Spelled(b, off, labels, jumps) == Some(end) && IsPointer(b, off) && tight == EndsAtJump(b, off, labels, jumps)
    ensures end == off + 2 && jumps > 0 && to == Target(b, off) < |b|
    ensures Spelled(b, to, labels, jumps - 1) == Some(e)
    ensures if labels == [] then tight else tight == EndsAtJump(b, to, labels, jumps - 1)
    ensures EndsAtJump(b, to, labels, jumps - 1) ==> tight
  {
    to := Target(b, off);
    e := Spelled(b, to, labels, jumps - 1).value;
  }

  /** A label that is part of a spelled name. */
  lemma SpelledLabel(b: Bytes, off: nat, labels: seq<Bytes>, jumps: nat, end: nat, acc: Bytes, name: Bytes)
    requires labels != [] && Spelled(b, off, labels, jumps) == Some(end) && !IsPointer(b, off)
    requires Appended(acc, labels) == name + [DOT]
    ensures var acc' := acc + (Clip(labels[0]) + [DOT]);
            && At(b, off, PackLabel(labels[0]))
            && Spelled(b, off + 1 + |Clip(labels[0])|, labels[1..], jumps) == Some(end)
            && EndsAtJump(b, off, labels, jumps) == EndsAtJump(b, off + 1 + |Clip(labels[0])|, labels[1..], jumps)
            && Appended(acc', labels[1..]) == name + [DOT] && |acc'| <= |name| + 1
  {
  }

  lemma AppendedGrows(acc: Bytes, labels: seq<Bytes>, name: Bytes)
    requires Appended(acc, labels) == name + [DOT]
    ensures if labels == [] then |acc| == |name| + 1 else |acc| < |name| + 1
  {
  }

  /** A spelled name that fits the buffer is returned, through every pointer. */
  lemma {:induction false} SpelledReturned(b: Bytes, off: nat, ns: nat, acc: Bytes, base: nat, jumps: nat, labels: seq<Bytes>,
                                           name: Bytes, end: nat, tight: bool)
    requires NonEmpty(labels) && Spelled(b, off, labels, jumps) == Some(end) && base <= |acc| && base < ns
    requires tight == EndsAtJump(b, off, labels, jumps)
    requires Appended(acc, labels) == name + [DOT] && |name| + (if tight then 2 else 1) <= ns
    ensures Returned(b, off, ns, acc, base, jumps, name, end)
    decreases jumps, |labels|
  {
    if IsPointer(b, off) {
      var to, e := SpelledJump(b, off, labels, jumps, end, tight);
      AppendedGrows(acc, labels, name);
      SpelledReturned(b, to, ns, acc, |acc|, jumps - 1, labels, name, e, EndsAtJump(b, to, labels, jumps - 1));
      JumpReturns(b, off, ns, acc, base, jumps, name, to, e);
    } else if labels == [] {
      EndReturns(b, off, ns, acc, base, jumps, name);
    } else {
      SpelledLabel(b, off, labels, jumps, end, acc, name);
      var (acc', next) := (acc + (Clip(labels[0]) + [DOT]), off + 1 + |Clip(labels[0])|);
      SpelledReturned(b, next, ns, acc', base, jumps, labels[1..], name, end, tight);
      LabelReturns(b, off, ns, acc, base, jumps, labels[0], acc', name, end);
    }
  }

  predicate Faults(b: Bytes, off: nat, ns: nat, acc: Bytes, base: nat, jumps: nat)
    requires base <= |acc|
  {
    Unpack(b, off, ns, acc, base, jumps) == Fault
  }

  lemma JumpFaults(b: Bytes, off: nat, ns: nat, acc: Bytes, base: nat, jumps: nat, to: nat)
    requires IsPointer(b, off) && to == Target(b, off) < |b| && base <= |acc| && jumps > 0
    requires |acc| < ns ==> Faults(b, to, ns, acc, |acc|, jumps - 1)
    ensures Faults(b, off, ns, acc, base, jumps)
  {
  }

  predicate LabelAt(b: Bytes, off: nat, lab: Bytes, acc: Bytes, acc': Bytes, next: nat) {
    lab != [] && At(b, off, PackLabel(lab)) && acc' == acc + (Clip(lab) + [DOT]) && next == off + 1 + |Clip(lab)|
  }

  lemma LabelFaults(b: Bytes, off: nat, ns: nat, acc: Bytes, base: nat, jumps: nat, lab: Bytes, acc': Bytes, next: nat)
    requires LabelAt(b, off, lab, acc, acc', next) && base <= |acc| <= |acc'| <= ns && Faults(b, next, ns, acc', base, jumps)
    ensures Faults(b, off, ns, acc, base, jumps)
  {
    var c := Clip(lab);
    AtSplit(b, off, [|c|], c);
    assert b[off] == b[off..off + 1][0] == |c|;
    assert acc + c + [DOT] == acc + (c + [DOT]);
  }

  predicate Tight(b: Bytes, off: nat, labels: seq<Bytes>, jumps: nat, end: nat) {
    Spelled(b, off, labels, jumps) == Some(end) && EndsAtJump(b, off, labels, jumps)
  }

  lemma TightJump(b: Bytes, off: nat, labels: seq<Bytes>, jumps: nat, end: nat) returns (to: nat, e: nat)
    requires Tight(b, off, labels, jumps, end) && IsPointer(b, off)
    ensures jumps > 0 && to == Target(b, off) < |b| && (labels != [] ==> Tight(b, to, labels, jumps - 1, e))
  {
    to, e := SpelledJump(b, off, labels, jumps, end, true);
  }

  lemma TightLabel(b: Bytes, off: nat, labels: seq<Bytes>, jumps: nat, end: nat, acc: Bytes, name: Bytes)
    returns (lab: Bytes, acc': Bytes, next: nat)
    requires NonEmpty(labels) && Tight(b, off, labels, jumps, end) && !IsPointer(b, off)
    requires Appended(acc, labels) == name + [DOT]
    ensures labels != [] && LabelAt(b, off, lab, acc, acc', next) && Tight(b, next, labels[1..], jumps, end)
    ensures Appended(acc', labels[1..]) == name + [DOT] && |acc| <= |acc'| <= |name| + 1
  {
    lab := labels[0];
    acc', next := acc + (Clip(lab) + [DOT]), off + 1 + |Clip(lab)|;
    SpelledLabel(b, off, labels, jumps, end, acc, name);
  }

  /** Where a pointer leads to the terminator alone, a buffer the name just fills has no room left behind the pointer. */
  lemma {:induction false} TightFaults(b: Bytes, off: nat, ns: nat, acc: Bytes, base: nat, jumps: nat, labels: seq<Bytes>,
                                       name: Bytes, end: nat)
    requires NonEmpty(labels) && Tight(b, off, labels, jumps, end) && base <= |acc| && ns == |name| + 1
    requires Appended(acc, labels) == name + [DOT]
    ensures Faults(b, off, ns, acc, base, jumps)
    decreases jumps, |labels|
  {
    if IsPointer(b, off) {
      var to, e := TightJump(b, off, labels, jumps, end);
      AppendedGrows(acc, labels, name);
      if labels != [] {
        TightFaults(b, to, ns, acc, |acc|, jumps - 1, labels, name, e);
      }
      JumpFaults(b, off, ns, acc, base, jumps, to);
    } else {
      var lab, acc', next := TightLabel(b, off, labels, jumps, end, acc, name);
      TightFaults(b, next, ns, acc', base, jumps, labels[1..], name, end);
      LabelFaults(b, off, ns, acc, base, jumps, lab, acc', next);
    }
  }

  /**
    A compressed name is its labels joined by dots, returned exactly when that fits the name buffer with its terminator,
    and with one more byte if a pointer leads to the terminator alone.
   */
  lemma CompressedComesBack(b: Bytes, off: nat, labels: seq<Bytes>, ns: nat, jumps: nat, end: nat)
    requires NonEmpty(labels) && labels != [] && Spelled(b, off, labels, jumps) == Some(end)
    ensures Unpack(b, off, ns, [], 0, jumps) == Name(Joined(labels), end) <==>
            |Joined(labels)| + (if EndsAtJump(b, off, labels, jumps) then 2 else 1) <= ns
  {
    UnpackFits(b, off, ns, [], 0, jumps);
    var (name, tight) := (Joined(labels), EndsAtJump(b, off, labels, jumps));
    JoinedDotted(labels);
    AppendedDotted([], labels);
    assert [] + Dotted(labels) == Dotted(labels);
    if |name| + (if tight then 2 else 1) <= ns {
      SpelledReturned(b, off, ns, [], 0, jumps, labels, name, end, tight);
    } else if |name| + 1 == ns {
      TightFaults(b, off, ns, [], 0, jumps, labels, name, end);
    }
  }

  predicate ProperLabels(labels: seq<Bytes>) {
    forall i :: 0 <= i < |labels| ==> 0 < |labels[i]| <= MAX_LABEL && DOT !in labels[i]
  }

  lemma {:induction false} SpanOf(l: Bytes, rest: Bytes, sep: Byte)
    requires sep !in l && (rest != [] ==> rest[0] == sep)
    ensures Span(l + rest, sep) == |l|
  {
    if l == [] {
      assert l + rest == rest;
    } else {
      assert (l + rest)[1..] == l[1..] + rest;
      SpanOf(l[1..], rest, sep);
    }
  }

  lemma {:induction false} TokensOfJoined(labels: seq<Bytes>)
    requires ProperLabels(labels)
    ensures Tokens(Joined(labels), DOT) == labels
    decreases |labels|
  {
    if labels != [] {
      var (l, rest) := (labels[0], labels[1..]);
      var tail := if rest == [] then [] else [DOT] + Joined(rest);
      assert Joined(labels) == l + tail;
      SpanOf(l, tail, DOT);
      assert (l + tail)[..|l|] == l && (l + tail)[|l|..] == tail;
      TokensOfJoined(rest);
      if rest != [] {
        assert tail[1..] == Joined(rest);
      }
      assert Tokens(l + tail, DOT) == [l] + Tokens(tail, DOT);
    }
  }

  /** A host name made of proper labels is carried unchanged. */
  lemma ProperNamesUnchanged(labels: seq<Bytes>)
    requires ProperLabels(labels)
    ensures Canonical(Joined(labels)) == Joined(labels)
  {
    TokensOfJoined(labels);
  }
}

/** The packing and unpacking routines, on byte buffers. */
module DNSMessage {
  import opened Common
  import opened DNSCodec

  /** `now` is the buffer `was` with p written at `at`. */
  ghost predicate Wrote(now: Bytes, was: Bytes, at: nat, p: Bytes) {
    && |now| == |was|
    && at + |p| <= |was|
    && forall i :: 0 <= i < |now| ==> now[i] == if at <= i < at + |p| then p[i - at] else was[i]
  }

  lemma WroteThen(now: Bytes, between: Bytes, was: Bytes, at: nat, p: Bytes, q: Bytes)
    requires Wrote(between, was, at, p) && Wrote(now, between, at + |p|, q)
    ensures Wrote(now, was, at, p + q)
  {
  }

  lemma WroteFront(now: Bytes, was: Bytes, p: Bytes)
    requires Wrote(now, was, 0, p)
    ensures now[..|p|] == p && now[|p|..] == was[|p|..]
  {
  }

  /** `memcpy` into a buffer. */
  method Copy(buf: array<Byte>, at: nat, p: Bytes)
    requires at + |p| <= buf.Length
    modifies buf
    ensures Wrote(buf[..], old(buf[..]), at, p)
  {
    var k := 0;
    while k < |p|
      invariant k <= |p|
      invariant forall i :: 0 <= i < buf.Length ==> buf[i] == if at <= i < at + k then p[i - at] else old(buf[i])
    {
      buf[at + k] := p[k];
      k := k + 1;
    }
  }

  /** Appends to what has been written at `at`. */
  method Append(buf: array<Byte>, at: nat, ghost was: Bytes, ghost p: Bytes, off: nat, q: Bytes)
    requires Wrote(buf[..], was, at, p) && |p| == off && at + off + |q| <= buf.Length
    modifies buf
    ensures Wrote(buf[..], was, at, p + q)
  {
    ghost var between := buf[..];
    Copy(buf, at + off, q);
    WroteThen(buf[..], between, was, at, p, q);
  }

  method HeaderPack(buf: array<Byte>, at: nat, h: Header) returns (off: nat)
    requires at + 12 <= buf.Length
    modifies buf
    ensures off == 12 && Wrote(buf[..], old(buf[..]), at, PackHeader(h))
  {
    var fields := [h.id, Flags(h), h.qdcount, h.ancount, h.nscount, h.arcount];
    ghost var was := buf[..];
    ghost var p: Bytes := [];
    off := 0;
    var k := 0;
    while k < 6
      invariant k <= 6 && off == 2 * k && p == PackFields(fields[..k]) && |p| == off
      invariant Wrote(buf[..], was, at, p)
    {
      Append(buf, at, was, p, off, PackU16(fields[k]));
      assert fields[..k + 1][..k] == fields[..k];
      p := p + PackU16(fields[k]);
      off := off + 2;
      k := k + 1;
    }
    PackedFields(h);
    assert fields[..6] == fields;
  }

  function PackFields(fields: seq<U16>): Bytes {
    if fields == [] then [] else PackFields(fields[..|fields| - 1]) + PackU16(fields[|fields| - 1])
  }

  lemma PackedFields(h: Header)
    ensures PackFields([h.id, Flags(h), h.qdcount, h.ancount, h.nscount, h.arcount]) == PackHeader(h)
  {
    var (a, b, c, d, e, f) := (h.id, Flags(h), h.qdcount, h.ancount, h.nscount, h.arcount);
    assert [a, b, c, d, e, f][..5] == [a, b, c, d, e];
    assert [a, b, c, d, e][..4] == [a, b, c, d];
    assert [a, b, c, d][..3] == [a, b, c];
    assert [a, b, c][..2] == [a, b];
    assert [a, b][..1] == [a];
    assert [a][..0] == [];
    assert PackFields([a]) == PackU16(a);
    assert PackFields([a, b, c]) == PackFields([a, b]) + PackU16(c);
    assert PackFields([a, b, c, d, e]) == PackFields([a, b, c, d]) + PackU16(e);
  }

  /** `rfc1035LabelPack`; the null label that ends a name is the empty one. */
  method LabelPack(buf: array<Byte>, at: nat, lab: Bytes) returns (off: nat)
    requires at + |PackLabel(lab)| <= buf.Length
    modifies buf
    ensures off == |PackLabel(lab)| && Wrote(buf[..], old(buf[..]), at, PackLabel(lab))
  {
    var len := |lab|;
    if len > MAX_LABEL {
      len := MAX_LABEL;
    }
    ghost var was := buf[..];
    Copy(buf, at, [len]);
    Append(buf, at, was, [len], 1, lab[..len]);
    off := 1 + len;
    assert lab[..len] == Clip(lab);
  }

  ghost function Todo(rest: Bytes): Bytes {
    PackLabels(Tokens(rest, DOT))
  }

  /** One call of `strtok`; the empty token is its NULL. */
  method NextToken(s: Bytes) returns (token: Bytes, rest: Bytes)
    ensures if token == [] then Todo(s) == [] else |rest| < |s| && Todo(s) == PackLabel(token) + Todo(rest)
  {
    rest := s;
    while rest != [] && rest[0] == DOT
      invariant |rest| <= |s| && Todo(rest) == Todo(s)
    {
      rest := rest[1..];
    }
    if rest == [] {
      return [], [];
    }
    TokenStep(rest);
    var k := Span(rest, DOT);
    return rest[..k], rest[k..];
  }

  method AppendLabel(buf: array<Byte>, at: nat, ghost was: Bytes, ghost p: Bytes, off: nat, lab: Bytes) returns (n: nat)
    requires Wrote(buf[..], was, at, p) && |p| == off && at + off + |PackLabel(lab)| <= buf.Length
    modifies buf
    ensures n == |PackLabel(lab)| && Wrote(buf[..], was, at, p + PackLabel(lab))
  {
    ghost var between := buf[..];
    n := LabelPack(buf, at + off, lab);
    WroteThen(buf[..], between, was, at, p, PackLabel(lab));
  }

  method NamePack(buf: array<Byte>, at: nat, name: Bytes) returns (off: nat)
    requires at + |PackName(name)| <= buf.Length
    modifies buf
    ensures off == |PackName(name)| && Wrote(buf[..], old(buf[..]), at, PackName(name))
  {
    ghost var was, all := buf[..], Todo(name);
    ghost var p: Bytes := [];
    off := 0;
    var token, rest := NextToken(name);
    ghost var todo := all;
    assert p + todo == all;
    while token != []
      invariant |p| == off && p + todo == all
      invariant if token == [] then todo == [] else todo == PackLabel(token) + Todo(rest)
      invariant Wrote(buf[..], was, at, p)
      decreases token != [], |rest|
    {
      Associate(p, PackLabel(token), Todo(rest));
      var n := AppendLabel(buf, at, was, p, off, token);
      p, todo := p + PackLabel(token), Todo(rest);
      off := off + n;
      token, rest := NextToken(rest);
    }
    assert p == all;
    assert PackLabel([]) == [0];
    var n := AppendLabel(buf, at, was, p, off, []);
    off := off + n;
  }

  lemma TokenStep(rest: Bytes)
    requires rest != [] && rest[0] != DOT
    ensures var k := Span(rest, DOT);
            k > 0 && PackLabels(Tokens(rest, DOT)) == PackLabel(rest[..k]) + PackLabels(Tokens(rest[k..], DOT))
  {
    var k := Span(rest, DOT);
    var ts := Tokens(rest, DOT);
    assert ts[0] == rest[..k] && ts[1..] == Tokens(rest[k..], DOT);
  }

  method QuestionPack(buf: array<Byte>, at: nat, name: Bytes, qtype: U16, qclass: U16) returns (off: nat)
    requires at + |PackQuestion(name, qtype, qclass)| <= buf.Length
    modifies buf
    ensures off == |PackQuestion(name, qtype, qclass)|
    ensures Wrote(buf[..], old(buf[..]), at, PackQuestion(name, qtype, qclass))
  {
    ghost var was := buf[..];
    off := NamePack(buf, at, name);
    ghost var p := PackName(name);
    Append(buf, at, was, p, off, PackU16(qtype));
    off := off + 2;
    Append(buf, at, was, p + PackU16(qtype), off, PackU16(qclass));
    off := off + 2;
  }

  /** Every packed header is recovered, whatever follows it, and only a message shorter than a header is refused. */
  method HeaderUnpack(b: Bytes) returns (h: Option<Header>)
    ensures h == UnpackHeader(b)
    ensures h.None? <==> |b| < 12
    ensures forall packed: Header :: PackHeader(packed) <= b ==> h == Some(packed)
  {
    forall packed: Header | PackHeader(packed) <= b
      ensures UnpackHeader(b) == Some(packed)
    {
      HeaderRoundTrip(packed, b[12..]);
      assert PackHeader(packed) + b[12..] == b;
    }
    if |b| < 12 {
      return None;
    }
    var t := ReadU16(b, 2);
    return Some(Header(ReadU16(b, 0), t / 32768 % 2, t / 2048 % 16, t / 1024 % 2, t / 512 % 2, t / 256 % 2,
                       t / 128 % 2, t % 16, ReadU16(b, 4), ReadU16(b, 6), ReadU16(b, 8), ReadU16(b, 10)));
  }

  method NameUnpack(b: Bytes, start: nat, ns: nat, prefix: Bytes, jumps: nat) returns (r: Outcome)
    ensures r == Unpack(b, start, ns, prefix, |prefix|, jumps)
    decreases jumps
  {
    var (off, name, base) := (start, prefix, |prefix|);
    if base >= ns {
      return Fault;
    }
    while off < |b|
      invariant base < ns && base <= |name|
      invariant Unpack(b, off, ns, name, base, jumps) == Unpack(b, start, ns, prefix, base, jumps)
      decreases |b| - off
    {
      var c := b[off];
      if c > 191 {
        if off + 2 >= |b| {
          return BadName;
        }
        var ptr := ReadU16(b, off) % 0x4000;
        if ptr >= |b| {
          return BadName;
        } else if jumps == 0 {
          return Fault;
        }
        var inner := NameUnpack(b, ptr, ns, name, jumps - 1);
        return if inner.Name? then Name(inner.name, off + 2) else inner;
      } else if c > MAX_LABEL {
        return BadName;
      } else if c == 0 {
        return if name == [] then Fault else Name(name[..|name| - 1], off + 1);
      }
      var len := if c > ns - base - 1 then ns - base - 1 else c;
      if off + 1 + len > |b| {
        return BadName;
      } else if |name| + len + 1 > ns {
        return Fault;
      }
      name := name + b[off + 1..off + 1 + len] + [DOT];
      off := off + 1 + len;
    }
    return Fault;
  }

  /** The number of different query identifiers: 1 to 0xFFFE. */
  const QIDS := 0xFFFE

  /** The identifier after q: the next 16-bit number, but 1 instead of 0xFFFF. */
  function Successor(q: U16): U16 {
    if q == QIDS then 1 else (q + 1) % 0x1_0000
  }

  /** The n-th identifier after q. */
  function NthQid(q: U16, n: nat): U16 {
    if n == 0 then q else Successor(NthQid(q, n - 1))
  }

  lemma {:induction false} NthQidIs(q: U16, n: nat)
    requires 1 <= q <= QIDS
    ensures NthQid(q, n) == 1 + (q - 1 + n) % QIDS
  {
    if n > 0 {
      NthQidIs(q, n - 1);
      NextInCycle(q - 1 + (n - 1));
    }
  }

  lemma NextInCycle(k: nat)
    ensures (k + 1) % QIDS == if k % QIDS == QIDS - 1 then 0 else k % QIDS + 1
  {
  }

  /** Identifiers run through 1..0xFFFE in order; two of them are equal exactly if a multiple of 0xFFFE draws lies between. */
  lemma QidsRepeatExactly(q: U16, m: nat, n: nat)
    requires 1 <= q <= QIDS && m <= n
    ensures 1 <= NthQid(q, n) <= QIDS
    ensures NthQid(q, m) == NthQid(q, n) <==> (n - m) % QIDS == 0
  {
    NthQidIs(q, m);
    NthQidIs(q, n);
    SameInCycle(q - 1 + m, q - 1 + n, NthQid(q, m) - 1, NthQid(q, n) - 1);
  }

  lemma SameInCycle(a: nat, b: nat, x: int, y: int)
    requires a <= b && x == a % QIDS && y == b % QIDS
    ensures x == y <==> (b - a) % QIDS == 0
  {
  }

  class Resolver {
    /** The counter of `rfc1035Qid`. */
    var lastQid: U16

    constructor ()
      ensures lastQid == 1
    {
      lastQid := 1;
    }

    method Qid() returns (id: U16)
      modifies this
      ensures id == lastQid && id != 0xFFFF && (old(lastQid) != 0xFFFF ==> id != 0)
      ensures id == Successor(old(lastQid)) != old(lastQid)
    {
      lastQid := (lastQid + 1) % 0x1_0000;
      if lastQid == 0xFFFF {
        lastQid := 1;
      }
      return lastQid;
    }

    /**
      `rfc1035BuildAQuery` (type A) and `rfc1035BuildAAAAQuery` (type AAAA).  A name that starts with anything but a
      letter or a digit is refused; unpacking what is written for any other non-empty name returns the given id, the
      type and the name.
     */
    method BuildQuery(hostname: Bytes, qtype: U16, qid: U16, buf: array<Byte>) returns (id: U16, size: nat)
      requires 12 + |PackQuestion(hostname, qtype, CLASS_IN)| <= buf.Length
      requires 0 !in hostname
      modifies this, buf
      ensures hostname != [] && !IsAlphanumeric(hostname[0]) ==>
                id == 0 && size == buf.Length && buf[..] == old(buf[..]) && lastQid == old(lastQid)
      ensures hostname == [] || IsAlphanumeric(hostname[0]) ==>
                && size <= buf.Length
                && buf[..size] == Query(hostname, qtype, id)
                && buf[size..] == old(buf[size..])
                && id == (if qid > 0 then qid else Successor(old(lastQid)))
                && lastQid == if qid > 0 then old(lastQid) else id
      ensures hostname != [] && IsAlphanumeric(hostname[0]) ==>
                size <= buf.Length && Asks(buf[..size], id, Canonical(hostname), qtype)
    {
      if hostname != [] && !IsAlphanumeric(hostname[0]) {
        return 0, buf.Length;
      }
      if qid > 0 {
        id := qid;
      } else {
        id := Qid();
      }
      size := WriteQuery(hostname, qtype, id, buf);
      if hostname != [] {
        QueryComesBack(hostname, qtype, id);
      }
    }

    method BuildAQuery(hostname: Bytes, qid: U16, buf: array<Byte>) returns (id: U16, size: nat)
      requires 12 + |PackQuestion(hostname, TYPE_A, CLASS_IN)| <= buf.Length && 0 !in hostname
      modifies this, buf
      ensures hostname != [] && IsAlphanumeric(hostname[0]) ==>
                size <= buf.Length && Asks(buf[..size], id, Canonical(hostname), TYPE_A) && (qid > 0 ==> id == qid)
    {
      id, size := BuildQuery(hostname, TYPE_A, qid, buf);
    }

    method BuildAAAAQuery(hostname: Bytes, qid: U16, buf: array<Byte>) returns (id: U16, size: nat)
      requires 12 + |PackQuestion(hostname, TYPE_AAAA, CLASS_IN)| <= buf.Length && 0 !in hostname
      modifies this, buf
      ensures hostname != [] && IsAlphanumeric(hostname[0]) ==>
                size <= buf.Length && Asks(buf[..size], id, Canonical(hostname), TYPE_AAAA) && (qid > 0 ==> id == qid)
    {
      id, size := BuildQuery(hostname, TYPE_AAAA, qid, buf);
    }
  }

  method WriteQuery(hostname: Bytes, qtype: U16, id: U16, buf: array<Byte>) returns (size: nat)
    requires 12 + |PackQuestion(hostname, qtype, CLASS_IN)| <= buf.Length
    modifies buf
    ensures size <= buf.Length && buf[..size] == Query(hostname, qtype, id) && buf[size..] == old(buf[size..])
  {
    ghost var was := buf[..];
    var h := Header(id, 0, 0, 0, 0, 1, 0, 0, 1, 0, 0, 0);
    size := HeaderPack(buf, 0, h);
    ghost var between := buf[..];
    var n := QuestionPack(buf, size, hostname, qtype, CLASS_IN);
    WroteThen(buf[..], between, was, 0, PackHeader(h), PackQuestion(hostname, qtype, CLASS_IN));
    size := size + n;
    WroteFront(buf[..], was, Query(hostname, qtype, id));
  }

  /** What a reader makes of a message: the identifier, and a name, a type and a class that end it. */
  ghost predicate Asks(m: Bytes, id: U16, name: Bytes, qtype: U16) {
    && |m| >= 12
    && UnpackHeader(m).Some?
    && UnpackHeader(m).value.id == id
    && (forall ns: nat, jumps: nat ::
          Unpack(m, 12, ns, [], 0, jumps) == Name(name, |m| - 4) <==> |name| + 1 <= ns)
    && ReadU16(m, |m| - 4) == qtype
    && ReadU16(m, |m| - 2) == CLASS_IN
  }

  lemma QueryComesBack(hostname: Bytes, qtype: U16, id: U16)
    requires hostname != [] && IsAlphanumeric(hostname[0])
    ensures Asks(Query(hostname, qtype, id), id, Canonical(hostname), qtype)
  {
    forall ns: nat, jumps: nat
      ensures var m := Query(hostname, qtype, id);
              Unpack(m, 12, ns, [], 0, jumps) == Name(Canonical(hostname), |m| - 4) <==> |Canonical(hostname)| + 1 <= ns
    {
      QueryRoundTrip(hostname, qtype, id, ns, jumps);
    }
    QueryRoundTrip(hostname, qtype, id, MAX_LABEL + 1, 0);
  }
}
