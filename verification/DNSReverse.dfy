/**
  Reverse names of IPv6 addresses (section 2.5 of RFC 1886): `rfc1035BuildPTR6Domain` in ip6_natpt/package/dnsmessage.cc
  and `get_query_ipv6_address` in ip6_natpt/package/dnsalg.cc.
 */
module DNSReverse {
  import opened Common
  import opened DNSCodec

  const COLON: Byte := 58
  const ZERO: Byte := 48

  /** ip6.int */
  const SUFFIX: Bytes := [105, 112, 54, 46, 105, 110, 116]

  // --- The two notations ---------------------------------------------------------------------------

  predicate IsHex(c: Byte) {
    48 <= c <= 57 || 65 <= c <= 70 || 97 <= c <= 102
  }

  predicate IsGroup(g: Bytes) {
    1 <= |g| <= 4 && forall i :: 0 <= i < |g| ==> IsHex(g[i])
  }

  predicate IsAddress(groups: seq<Bytes>) {
    1 <= |groups| <= 8 && forall i :: 0 <= i < |groups| ==> IsGroup(groups[i])
  }

  function Pad(g: Bytes): (p: Bytes)
    ensures |g| <= 4 ==> |p| == 4
  {
    (if |g| < 4 then seq(4 - |g|, _ => ZERO) else []) + g
  }

  /** Zero-padded groups joined by colons. */
  function Address(groups: seq<Bytes>): Bytes {
    if groups == [] then []
    else if |groups| == 1 then Pad(groups[0])
    else Pad(groups[0]) + [COLON] + Address(groups[1..])
  }

  /** The characters in reverse order, each followed by a dot. */
  function Nibbles(p: Bytes): (r: Bytes)
    ensures |r| == 2 * |p|
  {
    if p == [] then [] else Nibbles(p[1..]) + [p[0], DOT]
  }

  function Body(groups: seq<Bytes>): Bytes {
    if groups == [] then [] else Nibbles(Pad(groups[|groups| - 1])) + Body(groups[..|groups| - 1])
  }

  function Domain(groups: seq<Bytes>): Bytes {
    Body(groups) + SUFFIX
  }

  predicate HasSuffix(d: Bytes) {
    exists k :: 0 <= k <= |d| - 8 && SuffixAt(d, k)
  }

  predicate SuffixAt(d: Bytes, k: nat) {
    k + 8 <= |d| && d[k..k + 8] == [DOT] + SUFFIX
  }

  /** What the extraction loop writes, reading d from its end; n characters of the current group are out. */
  function Collect(d: Bytes, n: nat): Bytes {
    if d == [] then [] else
    var (c, rest) := (d[|d| - 1], d[..|d| - 1]);
    if c == DOT then Collect(rest, n)
    else if n == 3 && rest != [] then [c, COLON] + Collect(rest, 0)
    else [c] + Collect(rest, n + 1)
  }

  // --- Round trip ------------------------------------------------------------------------------------

  lemma CollectTwo(x: Bytes, c: Byte, n: nat)
    requires c != DOT && n <= 3
    ensures Collect(x + [c, DOT], n) ==
            if n == 3 then (if x == [] then [c] else [c, COLON] + Collect(x, 0)) else [c] + Collect(x, n + 1)
  {
    var d := x + [c, DOT];
    assert d[..|d| - 1] == x + [c];
    assert (x + [c])[..|x|] == x;
  }

  lemma NibblesSplit(x: Bytes, p: Bytes)
    requires p != []
    ensures x + Nibbles(p) == (x + Nibbles(p[1..])) + [p[0], DOT]
  {
  }

  /** The characters of a group, then the colon and what follows. */
  lemma CollectLast(x: Bytes, c: Byte, tail: Bytes)
    requires c != DOT && tail == if x == [] then [] else [COLON] + Collect(x, 0)
    ensures Collect(x + Nibbles([c]), 3) == [c] + tail
  {
    NibblesSplit(x, [c]);
    assert x + Nibbles([c][1..]) == x;
    CollectTwo(x, c, 3);
  }

  lemma CollectMore(x: Bytes, c: Byte, p: Bytes, n: nat, r: Bytes)
    requires c != DOT && n < 3 && Collect(x + Nibbles(p), n + 1) == r
    ensures Collect(x + Nibbles([c] + p), n) == [c] + r
  {
    NibblesSplit(x, [c] + p);
    assert ([c] + p)[1..] == p;
    CollectTwo(x + Nibbles(p), c, n);
  }

  lemma CollectNibbles(x: Bytes, a: Byte, b: Byte, c: Byte, d: Byte, tail: Bytes)
    requires DOT !in [a, b, c, d] && tail == if x == [] then [] else [COLON] + Collect(x, 0)
    ensures Collect(x + Nibbles([a, b, c, d]), 0) == [a, b, c, d] + tail
  {
    CollectLast(x, d, tail);
    CollectMore(x, c, [d], 2, [d] + tail);
    CollectMore(x, b, [c] + [d], 1, [c] + ([d] + tail));
    CollectMore(x, a, [b] + ([c] + [d]), 0, [b] + ([c] + ([d] + tail)));
    FourAndTail(a, b, c, d, tail);
  }

  lemma FourAndTail(a: Byte, b: Byte, c: Byte, d: Byte, tail: Bytes)
    ensures [a] + ([b] + ([c] + [d])) == [a, b, c, d]
    ensures [a] + ([b] + ([c] + ([d] + tail))) == [a, b, c, d] + tail
  {
  }

  lemma {:induction false} BodyCons(groups: seq<Bytes>)
    requires groups != []
    ensures Body(groups) == Body(groups[1..]) + Nibbles(Pad(groups[0]))
    decreases |groups|
  {
    if |groups| == 1 {
      assert groups[..0] == [];
      assert Body([]) == [];
    } else {
      var (front, tail) := (groups[..|groups| - 1], groups[1..]);
      BodyCons(front);
      assert front[1..] == tail[..|tail| - 1] && front[0] == groups[0] && tail[|tail| - 1] == groups[|groups| - 1];
      Associate(Nibbles(Pad(groups[|groups| - 1])), Body(front[1..]), Nibbles(Pad(groups[0])));
    }
  }

  lemma PadHex(g: Bytes)
    requires IsGroup(g)
    ensures DOT !in Pad(g)
  {
  }

  lemma {:induction false} BodyEmpty(groups: seq<Bytes>)
    requires forall i :: 0 <= i < |groups| ==> IsGroup(groups[i])
    ensures Body(groups) == [] <==> groups == []
    ensures |Body(groups)| == 8 * |groups|
    decreases |groups|
  {
    if groups != [] {
      BodyEmpty(groups[..|groups| - 1]);
    }
  }

  lemma {:induction false} NibblesAt(p: Bytes, m: nat)
    requires m < |p|
    ensures Nibbles(p)[2 * m] == p[|p| - 1 - m] && Nibbles(p)[2 * m + 1] == DOT
  {
    if m < |p| - 1 {
      NibblesAt(p[1..], m);
    }
  }

  lemma Later(front: Bytes, group: Bytes, m: nat)
    requires |group| == 8 && 4 <= m && 2 * (m - 4) + 1 < |front|
    ensures (group + front)[2 * m] == front[2 * (m - 4)] && (group + front)[2 * m + 1] == front[2 * (m - 4) + 1]
    ensures (m - 4) / 4 == m / 4 - 1 && (m - 4) % 4 == m % 4
  {
  }

  /** Section 2.5 of RFC 1886: all hexadecimal digits in reverse order, the last one first, each followed by a dot. */
  lemma {:induction false} BodyAt(groups: seq<Bytes>, m: nat)
    requires (forall i :: 0 <= i < |groups| ==> IsGroup(groups[i])) && m < 4 * |groups|
    ensures |Body(groups)| == 8 * |groups|
    ensures Body(groups)[2 * m] == Pad(groups[|groups| - 1 - m / 4])[3 - m % 4] && Body(groups)[2 * m + 1] == DOT
  {
    BodyEmpty(groups);
    var (front, last) := (groups[..|groups| - 1], Pad(groups[|groups| - 1]));
    if m < 4 {
      NibblesAt(last, m);
    } else {
      BodyAt(front, m - 4);
      Later(Body(front), Nibbles(last), m);
    }
  }

  lemma AddressCons(groups: seq<Bytes>, tail: Bytes)
    requires groups != [] && tail == if groups[1..] == [] then [] else [COLON] + Address(groups[1..])
    ensures Address(groups) == Pad(groups[0]) + tail
  {
  }

  lemma {:induction false} CollectBody(groups: seq<Bytes>)
    requires forall i :: 0 <= i < |groups| ==> IsGroup(groups[i])
    ensures Collect(Body(groups), 0) == Address(groups)
    decreases |groups|
  {
    if groups != [] {
      var rest := groups[1..];
      BodyCons(groups);
      BodyEmpty(rest);
      PadHex(groups[0]);
      CollectBody(rest);
      var tail := if rest == [] then [] else [COLON] + Address(rest);
      var p := Pad(groups[0]);
      CollectNibbles(Body(rest), p[0], p[1], p[2], p[3], tail);
      assert [p[0], p[1], p[2], p[3]] == p;
      AddressCons(groups, tail);
    }
  }

  lemma BodyEndsWithDot(groups: seq<Bytes>)
    requires groups != []
    ensures Body(groups) != [] && Body(groups)[|Body(groups)| - 1] == DOT
  {
    BodyCons(groups);
    var p := Pad(groups[0]);
    assert p != [] ==> Nibbles(p) == Nibbles(p[1..]) + [p[0], DOT];
  }

  lemma SuffixFollows(b: Bytes)
    requires b != [] && b[|b| - 1] == DOT
    ensures SuffixAt(b + SUFFIX, |b| - 1)
  {
  }

  /** The extraction undoes the construction, up to zero padding. */
  lemma ReverseRoundTrip(groups: seq<Bytes>)
    requires IsAddress(groups)
    ensures var d := Domain(groups);
            HasSuffix(d) && |d| >= 8 && Collect(d[..|d| - 8], 0) == Address(groups)
  {
    var (d, b) := (Domain(groups), Body(groups));
    BodyEmpty(groups);
    BodyEndsWithDot(groups);
    CollectBody(groups);
    SuffixFollows(b);
    assert SuffixAt(d, |b| - 1);
    assert d[..|d| - 8] == b[..|b| - 1];
  }

  // --- The code ----------------------------------------------------------------------------------------

  const REV_SIZE := 82
  const SUFFIX_AT := 65
  const NUL_AT := 72

  /** The C string that starts at i: everything before the NUL behind the suffix. */
  function Text(rev: Bytes, i: nat): Bytes
    requires i <= NUL_AT < |rev|
  {
    rev[i..NUL_AT]
  }

  method PutNibble(rev: array<Byte>, j0: int, c: Byte) returns (j: int)
    requires rev.Length == REV_SIZE && 2 <= j0 < SUFFIX_AT
    modifies rev
    ensures j == j0 - 2 && rev[NUL_AT] == old(rev[NUL_AT])
    ensures Text(rev[..], j + 1) == [c, DOT] + old(Text(rev[..], j0 + 1))
  {
    rev[j0] := DOT;
    rev[j0 - 1] := c;
    j := j0 - 2;
  }

  /** Characters p written backwards from j, each behind a dot. */
  method PutAll(rev: array<Byte>, j0: int, p: Bytes) returns (j: int)
    requires rev.Length == REV_SIZE && 2 * |p| <= j0 < SUFFIX_AT
    modifies rev
    ensures j == j0 - 2 * |p| && rev[NUL_AT] == old(rev[NUL_AT])
    ensures Text(rev[..], j + 1) == Nibbles(p) + old(Text(rev[..], j0 + 1))
  {
    j := j0;
    ghost var was := Text(rev[..], j0 + 1);
    var k := 0;
    assert Text(rev[..], j + 1) == Nibbles(p[..k]) + was;
    while k < |p|
      invariant k <= |p| && j == j0 - 2 * k && rev[NUL_AT] == old(rev[NUL_AT])
      invariant Text(rev[..], j + 1) == Nibbles(p[..k]) + was
    {
      j := PutNibble(rev, j, p[k]);
      NibblesSnoc(p[..k], p[k]);
      assert p[..k + 1] == p[..k] + [p[k]];
      Associate([p[k], DOT], Nibbles(p[..k]), was);
      k := k + 1;
    }
    assert p[..k] == p;
  }

  lemma {:induction false} NibblesSnoc(p: Bytes, c: Byte)
    ensures Nibbles(p + [c]) == [c, DOT] + Nibbles(p)
  {
    if p == [] {
      assert p + [c] == [c] && [c][1..] == [];
    } else {
      assert (p + [c])[1..] == p[1..] + [c] && (p + [c])[0] == p[0];
      NibblesSnoc(p[1..], c);
    }
  }

  lemma {:induction false} NibblesAppend(p: Bytes, q: Bytes)
    ensures Nibbles(p + q) == Nibbles(q) + Nibbles(p)
    decreases |q|
  {
    if q == [] {
      assert p + q == p && Nibbles(q) + Nibbles(p) == Nibbles(p);
    } else {
      var (front, c) := (q[..|q| - 1], q[|q| - 1]);
      NibblesAppend(p, front);
      NibblesSnoc(p + front, c);
      NibblesSnoc(front, c);
      assert q == front + [c] && p + q == (p + front) + [c];
      Associate([c, DOT], Nibbles(front), Nibbles(p));
    }
  }

  method PutGroup(rev: array<Byte>, j0: int, g: Bytes) returns (j: int)
    requires rev.Length == REV_SIZE && 2 * |Pad(g)| <= j0 < SUFFIX_AT
    modifies rev
    ensures j == j0 - 2 * |Pad(g)| && rev[NUL_AT] == old(rev[NUL_AT])
    ensures Text(rev[..], j + 1) == Nibbles(Pad(g)) + old(Text(rev[..], j0 + 1))
  {
    ghost var was := Text(rev[..], j0 + 1);
    if |g| == 4 {
      j := PutAll(rev, j0, g);
      assert Pad(g) == g;
    } else {
      var zeros := if |g| < 4 then seq(4 - |g|, _ => ZERO) else [];
      j := PutAll(rev, j0, zeros);
      j := PutAll(rev, j, g);
      PaddedText(g, zeros, was);
    }
  }

  lemma PaddedText(g: Bytes, zeros: Bytes, was: Bytes)
    requires Pad(g) == zeros + g
    ensures Nibbles(g) + (Nibbles(zeros) + was) == Nibbles(Pad(g)) + was
  {
    NibblesAppend(zeros, g);
    Associate(Nibbles(g), Nibbles(zeros), was);
  }

  /** `rfc1035BuildPTR6Domain`, for every string whose groups fit the buffer. */
  method BuildPTR6Domain(address: Bytes) returns (domain: Bytes)
    requires 0 !in address && |Body(Tokens(address, COLON))| <= 64
    ensures domain == Domain(Tokens(address, COLON))
  {
    var groups := Tokens(address, COLON);
    var rev := new Byte[REV_SIZE];
    rev[65], rev[66], rev[67], rev[68], rev[69], rev[70], rev[71] := 105, 112, 54, 46, 105, 110, 116;
    rev[72], rev[73] := 0, 0;
    assert Text(rev[..], SUFFIX_AT) == SUFFIX;
    var j := PutGroups(rev, groups);
    NoNulTokens(address, COLON);
    NoNul(groups);
    domain := CString(rev, j + 1, Domain(groups));
  }

  /** Reads the string at i. */
  method CString(rev: array<Byte>, i: nat, ghost text: Bytes) returns (s: Bytes)
    requires i <= NUL_AT < rev.Length && rev[NUL_AT] == 0 && Text(rev[..], i) == text && 0 !in text
    ensures s == text
  {
    var tail := rev[i..];
    assert tail == text + rev[NUL_AT..];
    SpanOf(text, rev[NUL_AT..], 0);
    s := tail[..Span(tail, 0)];
  }

  method PutGroups(rev: array<Byte>, groups: seq<Bytes>) returns (j: int)
    requires rev.Length == REV_SIZE && |Body(groups)| <= 64 && Text(rev[..], SUFFIX_AT) == SUFFIX
    modifies rev
    ensures j == 64 - |Body(groups)| && rev[NUL_AT] == old(rev[NUL_AT]) && Text(rev[..], j + 1) == Domain(groups)
  {
    j := 64;
    var i := 0;
    assert Domain(groups[..0]) == SUFFIX;
    while i < |groups|
      invariant i <= |groups| && j == 64 - |Body(groups[..i])| && rev[NUL_AT] == old(rev[NUL_AT])
      invariant 0 <= j && Text(rev[..], j + 1) == Domain(groups[..i])
    {
      BodyGrows(groups, i);
      j := PutGroup(rev, j, groups[i]);
      i := i + 1;
    }
    assert groups[..i] == groups;
  }

  /** One more group. */
  lemma BodyGrows(groups: seq<Bytes>, i: nat)
    requires i < |groups|
    ensures |Body(groups[..i])| + 2 * |Pad(groups[i])| == |Body(groups[..i + 1])| <= |Body(groups)|
    ensures Domain(groups[..i + 1]) == Nibbles(Pad(groups[i])) + Domain(groups[..i])
  {
    DomainSnoc(groups[..i], groups[i]);
    assert groups[..i + 1] == groups[..i] + [groups[i]];
    BodyPrefix(groups, i + 1);
  }

  lemma {:induction false} BodyPrefix(groups: seq<Bytes>, i: nat)
    requires i <= |groups|
    ensures |Body(groups[..i])| <= |Body(groups)|
    decreases |groups|
  {
    if i < |groups| {
      BodyPrefix(groups[..|groups| - 1], i);
      assert groups[..|groups| - 1][..i] == groups[..i];
    } else {
      assert groups[..i] == groups;
    }
  }

  lemma {:induction false} NoNulTokens(s: Bytes, sep: Byte)
    requires 0 !in s
    ensures forall i :: 0 <= i < |Tokens(s, sep)| ==> 0 !in Tokens(s, sep)[i]
    decreases |s|
  {
    if s != [] {
      NoNulTokens(if s[0] == sep then s[1..] else s[Span(s, sep)..], sep);
    }
  }

  lemma DomainSnoc(groups: seq<Bytes>, g: Bytes)
    ensures Domain(groups + [g]) == Nibbles(Pad(g)) + Domain(groups)
  {
    assert (groups + [g])[..|groups|] == groups;
    Associate(Nibbles(Pad(g)), Body(groups), SUFFIX);
  }

  lemma {:induction false} NoNulNibbles(p: Bytes)
    requires 0 !in p
    ensures 0 !in Nibbles(p)
  {
    if p != [] {
      NoNulNibbles(p[1..]);
    }
  }

  lemma {:induction false} NoNul(groups: seq<Bytes>)
    requires forall i :: 0 <= i < |groups| ==> 0 !in groups[i]
    ensures 0 !in Body(groups) && 0 !in Domain(groups)
    decreases |groups|
  {
    if groups != [] {
      NoNulNibbles(Pad(groups[|groups| - 1]));
      NoNul(groups[..|groups| - 1]);
    }
  }

  /** What one character makes the extraction loop write, and the group count it leaves. */
  function Emit(c: Byte, n: nat, last: bool): (Bytes, nat) {
    if c == DOT then ([], n) else if n == 3 && !last then ([c, COLON], 0) else ([c], n + 1)
  }

  lemma CollectStep(d: Bytes, i: nat, n: nat)
    requires i < |d|
    ensures var (out, n') := Emit(d[i], n, i == 0); Collect(d[..i + 1], n) == out + Collect(d[..i], n')
  {
    assert d[..i + 1][..i] == d[..i];
  }

  lemma {:induction false} NoNulCollect(d: Bytes, n: nat)
    requires 0 !in d
    ensures 0 !in Collect(d, n)
    decreases |d|
  {
    if d != [] {
      var (out, n') := Emit(d[|d| - 1], n, |d| == 1);
      CollectStep(d, |d| - 1, n);
      assert d[..|d|] == d;
      NoNulCollect(d[..|d| - 1], n');
    }
  }

  /** The buffer holds `done` followed by NULs. */
  ghost predicate Holds(buf: Bytes, done: Bytes) {
    |done| < |buf| && buf[..|done|] == done && forall i :: |done| <= i < |buf| ==> buf[i] == 0
  }

  method PutByte(buf: array<Byte>, j: nat, c: Byte, ghost done: Bytes)
    requires Holds(buf[..], done) && j == |done| && j + 1 < buf.Length
    modifies buf
    ensures Holds(buf[..], done + [c])
  {
    buf[j] := c;
    assert buf[..j] == done;
  }

  lemma Advance(all: Bytes, done: Bytes, out: Bytes, rest: Bytes)
    requires all == done + (out + rest)
    ensures all == (done + out) + rest && |done| + |out| <= |all|
  {
  }

  /** The loop of `get_query_ipv6_address`. */
  method Extract(d: Bytes, size: nat, buf: array<Byte>)
    requires size <= |d| && |Collect(d[..size], 0)| < buf.Length && Holds(buf[..], [])
    modifies buf
    ensures Holds(buf[..], Collect(d[..size], 0))
  {
    ghost var all, done: Bytes := Collect(d[..size], 0), [];
    ghost var rest := all;
    var i, j, n := size - 1, 0, 0;
    assert all == done + rest;
    while i >= 0
      invariant -1 <= i < size && 0 <= n && (i >= 0 ==> n <= 3)
      invariant rest == Collect(d[..i + 1], n) && all == done + rest && j == |done| && Holds(buf[..], done)
    {
      CollectStep(d, i, n);
      ghost var (out, n') := Emit(d[i], n, i == 0);
      Advance(all, done, out, Collect(d[..i], n'));
      if d[i] != DOT {
        PutByte(buf, j, d[i], done);
        j := j + 1;
        n := n + 1;
        if n == 4 && i > 0 {
          PutByte(buf, j, COLON, done + [d[i]]);
          assert (done + [d[i]]) + [COLON] == done + out;
          j := j + 1;
          n := 0;
        }
      }
      assert d[i] == DOT ==> done + out == done;
      done, rest := done + out, Collect(d[..i], n');
      i := i - 1;
    }
    assert rest == [] && done == all;
  }

  /** `get_query_ipv6_address` into a zeroed buffer; the result is `strlen` of the buffer. */
  method GetQueryIPv6Address(d: Bytes, buf: array<Byte>) returns (len: nat)
    requires 0 !in d && (|d| >= 8 ==> |Collect(d[..|d| - 8], 0)| < buf.Length)
    requires Holds(buf[..], [])
    modifies buf
    ensures !HasSuffix(d) ==> len == 0 && buf[..] == old(buf[..])
    ensures HasSuffix(d) ==> |d| >= 8 && len <= buf.Length && buf[..len] == Collect(d[..|d| - 8], 0)
  {
    if !HasSuffix(d) {
      return 0;
    }
    Extract(d, |d| - 8, buf);
    ghost var all := Collect(d[..|d| - 8], 0);
    NoNulCollect(d[..|d| - 8], 0);
    var s := buf[..];
    assert s == all + s[|all|..];
    SpanOf(all, s[|all|..], 0);
    len := Span(s, 0);
  }

  /** For every address of one to eight groups, eight included: out comes the zero-padded address. */
  method ThereAndBack(address: Bytes, buf: array<Byte>) returns (len: nat)
    requires 0 !in address && IsAddress(Tokens(address, COLON))
    requires |Address(Tokens(address, COLON))| < buf.Length && Holds(buf[..], [])
    modifies buf
    ensures len <= buf.Length && buf[..len] == Address(Tokens(address, COLON))
  {
    BodyEmpty(Tokens(address, COLON));
    var d := BuildPTR6Domain(address);
    ReverseRoundTrip(Tokens(address, COLON));
    NoNulTokens(address, COLON);
    NoNul(Tokens(address, COLON));
    len := GetQueryIPv6Address(d, buf);
  }
}
