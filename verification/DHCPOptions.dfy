/**
  The DHCP option iterator: dhcp/package/dhcpoptionutil.cc.  The packet is the bytes of `dhcpMessage` from its first
  field to the end of the data; positions are offsets into them.
 */
module DHCPOptions {
  import opened Common

  const SNAME := 44
  const FILE := 108
  const MAGIC := 236
  const OPTIONS := 240
  const UDP_HEADER := 8

  const PAD := 0
  const OVERLOAD := 52
  const END := 255

  predicate HasMagic(b: Bytes)
    requires |b| >= OPTIONS
  {
    b[MAGIC..OPTIONS] == [0x63, 0x82, 0x53, 0x63]
  }

  // --- The reference: parsed TLV lists -------------------------------------------------------

  /** Positions of the options in [o, end): pads skipped, up to an END, a truncated option or a last lone byte. */
  function Parse(b: Bytes, o: nat, end: nat): seq<nat>
    requires end <= |b|
    decreases end - o
  {
    if o + 1 >= end then []
    else if b[o] == PAD then Parse(b, o + 1, end)
    else if b[o] == END || o + 2 + b[o + 1] > end then []
    else [o] + Parse(b, o + 2 + b[o + 1], end)
  }

  predicate IsOption(b: Bytes, p: nat, end: nat) {
    p + 1 < end <= |b| && b[p] != PAD && b[p] != END && p + 2 + b[p + 1] <= end
  }

  function Matching(b: Bytes, ps: seq<nat>, want: int): seq<nat> {
    if ps == [] then []
    else (if ps[0] < |b| && b[ps[0]] == want then [ps[0]] else []) + Matching(b, ps[1..], want)
  }

  /** An overload option the code acts on: one byte, value 1, 2 or 3 (section 9.3 of RFC 2132). */
  predicate Effective(b: Bytes, p: nat) {
    p + 2 < |b| && b[p] == OVERLOAD && b[p + 1] == 1 && 1 <= b[p + 2] <= 3
  }

  function FirstOverload(b: Bytes, ps: seq<nat>): (v: nat)
    ensures v <= 3
  {
    if ps == [] then 0 else if Effective(b, ps[0]) then b[ps[0] + 2] else FirstOverload(b, ps[1..])
  }

  function InArea(b: Bytes, want: int, start: nat, end: nat): seq<nat>
    requires end <= |b|
  {
    Matching(b, Parse(b, start, end), want)
  }

  /** What is still to come once the current area is exhausted. */
  function Later(b: Bytes, want: int, overload: nat): seq<nat>
    requires |b| >= OPTIONS
  {
    (if overload in {1, 3} then InArea(b, want, FILE, MAGIC) else []) +
    (if overload in {2, 3} then InArea(b, want, SNAME, FILE) else [])
  }

  /** Every occurrence of an option: options, then `file`, then `sname`, as the first effective overload option selects. */
  function AllOccurrences(b: Bytes, want: int): seq<nat>
    requires |b| >= OPTIONS
  {
    if !HasMagic(b) then [] else
    InArea(b, want, OPTIONS, |b|) + Later(b, want, FirstOverload(b, Parse(b, OPTIONS, |b|)))
  }

  // --- The iterator ------------------------------------------------------------------------------

  /** The while loop: the option found, if any, and the overload state it leaves. */
  function Scan(b: Bytes, o: nat, end: nat, want: int, overload: nat): (r: (Option<nat>, nat))
    requires end <= |b|
    ensures r.0.Some? ==> o <= r.0.value && IsOption(b, r.0.value, end)
    decreases end - o
  {
    if o + 1 >= end then (None, overload)
    else if b[o] == PAD then Scan(b, o + 1, end, want, overload)
    else if b[o] == END || o + 2 + b[o + 1] > end then (None, overload)
    else if b[o] == want then (Some(o), overload)
    else if b[o] == OVERLOAD && overload == 0 && b[o + 1] == 1 && b[o + 2] <= 3 then
      Scan(b, o + 3, end, want, b[o + 2])
    else Scan(b, o + 2 + b[o + 1], end, want, overload)
  }

  /** The scan and its continuations into `file` and `sname`. */
  function Search(b: Bytes, o: nat, end: nat, want: int, overload: nat): (r: (Option<nat>, nat))
    requires OPTIONS <= |b| && end <= |b|
    decreases if overload in {1, 3} then 2 else if overload == 2 then 1 else if overload == 0 then 3 else 0
  {
    var (p, v) := Scan(b, o, end, want, overload);
    ScanOverload(b, o, end, want, overload);
    if p.Some? then (p, v)
    else if v == 1 || v == 3 then Search(b, FILE, MAGIC, want, if v == 3 then 2 else 4)
    else if v == 2 then Search(b, SNAME, FILE, want, 4)
    else (None, v)
  }

  lemma {:induction false} ScanOverload(b: Bytes, o: nat, end: nat, want: int, overload: nat)
    requires end <= |b|
    ensures var v := Scan(b, o, end, want, overload).1; if overload == 0 then v <= 3 else v == overload
    decreases end - o
  {
    if o + 1 >= end {
    } else if b[o] == PAD {
      ScanOverload(b, o + 1, end, want, overload);
    } else if b[o] == END || o + 2 + b[o + 1] > end || b[o] == want {
    } else if b[o] == OVERLOAD && overload == 0 && b[o + 1] == 1 && b[o + 2] <= 3 {
      ScanOverload(b, o + 3, end, want, b[o + 2]);
    } else {
      ScanOverload(b, o + 2 + b[o + 1], end, want, overload);
    }
  }

  /** The end of the area that holds position o, as the code recomputes it. */
  function AreaEnd(b: Bytes, o: nat): nat {
    if o < FILE then FILE else if o < MAGIC then MAGIC else |b|
  }

  predicate IsArea(b: Bytes, o: nat, end: nat) {
    || (SNAME <= o && end == FILE)
    || (FILE <= o && end == MAGIC)
    || (OPTIONS <= o && end == |b|)
  }

  /** A position the iterator has returned. */
  predicate IsCursor(b: Bytes, o: nat) {
    |b| >= OPTIONS && IsArea(b, o, AreaEnd(b, o)) && IsOption(b, o, AreaEnd(b, o))
  }

  predicate Readable(b: Bytes) {
    |b| >= OPTIONS || UDP_HEADER + |b| < OPTIONS
  }

  /** `fetch_next`: the next occurrence and the new overload state. */
  function FetchNext(b: Bytes, want: int, overload: nat, o: Option<nat>): (Option<nat>, nat)
    requires Readable(b) && (o.Some? ==> IsCursor(b, o.value))
  {
    match o
    case None => if UDP_HEADER + |b| < OPTIONS || !HasMagic(b) then (None, overload) else Search(b, OPTIONS, |b|, want, 0)
    case Some(p) => Search(b, p + 2 + b[p + 1], AreaEnd(b, p), want, overload)
  }

  // --- The reference reads what a sender writes ---------------------------------------------------

  /** An option as section 2 of RFC 2132 lays it out: a code other than pad and end, a length and the data. */
  datatype TLV = TLV(code: Byte, data: Bytes)

  /** The option t stands at p. */
  predicate StandsAt(b: Bytes, p: nat, t: TLV) {
    p + 2 + |t.data| <= |b| && b[p] == t.code && b[p + 1] == |t.data| && b[p + 2..p + 2 + |t.data|] == t.data
  }

  /** The options stand one behind the other, each behind any number of pads, up to an end option or the end of the area. */
  predicate Written(b: Bytes, o: nat, end: nat, ts: seq<TLV>)
    requires end <= |b|
    decreases end - o
  {
    if o + 1 >= end then ts == []
    else if b[o] == PAD then Written(b, o + 1, end, ts)
    else if b[o] == END then ts == []
    else ts != [] && StandsAt(b, o, ts[0]) && o + 2 + |ts[0].data| <= end && Written(b, o + 2 + |ts[0].data|, end, ts[1..])
  }

  /** The positions parsed are those of the options written, in order. */
  lemma {:induction false} ParseReads(b: Bytes, o: nat, end: nat, ts: seq<TLV>)
    requires end <= |b| && Written(b, o, end, ts)
    ensures var ps := Parse(b, o, end);
            |ps| == |ts| && forall i :: 0 <= i < |ps| ==> StandsAt(b, ps[i], ts[i])
    decreases end - o
  {
    if o + 1 < end {
      if b[o] == PAD {
        ParseReads(b, o + 1, end, ts);
      } else if b[o] != END {
        ParseReads(b, o + 2 + |ts[0].data|, end, ts[1..]);
      }
    }
  }

  // --- The iterator follows the reference -------------------------------------------------------

  function NextOverload(b: Bytes, ps: seq<nat>, overload: nat): nat {
    if overload == 0 then FirstOverload(b, ps) else overload
  }

  /** The occurrences still ahead of a scan at o. */
  function Remaining(b: Bytes, want: int, o: nat, end: nat, overload: nat): seq<nat>
    requires OPTIONS <= |b| && end <= |b|
  {
    InArea(b, want, o, end) + Later(b, want, NextOverload(b, Parse(b, o, end), overload))
  }

  /** What one option contributes to the reference. */
  lemma ParseOption(b: Bytes, o: nat, end: nat, want: int)
    requires IsOption(b, o, end)
    ensures var next := o + 2 + b[o + 1];
            && InArea(b, want, o, end) == (if b[o] == want then [o] else []) + InArea(b, want, next, end)
            && FirstOverload(b, Parse(b, o, end)) ==
               if Effective(b, o) then b[o + 2] else FirstOverload(b, Parse(b, next, end))
  {
    var rest := Parse(b, o + 2 + b[o + 1], end);
    assert Parse(b, o, end) == [o] + rest;
    assert ([o] + rest)[1..] == rest;
  }

  predicate Follows(b: Bytes, want: int, o: nat, end: nat, overload: nat, p: Option<nat>, v: nat)
    requires end <= |b|
  {
    if p.None? then InArea(b, want, o, end) == [] && v == NextOverload(b, Parse(b, o, end), overload)
    else
      && IsOption(b, p.value, end)
      && var next := p.value + 2 + b[p.value + 1];
         && InArea(b, want, o, end) == [p.value] + InArea(b, want, next, end)
         && NextOverload(b, Parse(b, o, end), overload) == NextOverload(b, Parse(b, next, end), v)
  }

  lemma SkipArea(b: Bytes, want: int, o: nat, end: nat)
    requires IsOption(b, o, end) && b[o] != want
    ensures InArea(b, want, o, end) == InArea(b, want, o + 2 + b[o + 1], end)
  {
    ParseOption(b, o, end, want);
    var rest := InArea(b, want, o + 2 + b[o + 1], end);
    assert [] + rest == rest;
  }

  lemma SkipOverload(b: Bytes, o: nat, end: nat, overload: nat, w: nat)
    requires IsOption(b, o, end)
    requires w == if b[o] == OVERLOAD && overload == 0 && b[o + 1] == 1 && b[o + 2] <= 3 then b[o + 2] else overload
    ensures NextOverload(b, Parse(b, o, end), overload) == NextOverload(b, Parse(b, o + 2 + b[o + 1], end), w)
  {
    ParseOption(b, o, end, OVERLOAD);
  }

  /** Passing an option that is not wanted. */
  lemma SkipFollows(b: Bytes, want: int, o: nat, end: nat, overload: nat, w: nat, p: Option<nat>, v: nat)
    requires IsOption(b, o, end) && b[o] != want
    requires w == if b[o] == OVERLOAD && overload == 0 && b[o + 1] == 1 && b[o + 2] <= 3 then b[o + 2] else overload
    requires Follows(b, want, o + 2 + b[o + 1], end, w, p, v)
    ensures Follows(b, want, o, end, overload, p, v)
  {
    SkipArea(b, want, o, end);
    SkipOverload(b, o, end, overload, w);
  }

  lemma PadFollows(b: Bytes, want: int, o: nat, end: nat, overload: nat, p: Option<nat>, v: nat)
    requires o + 1 < end <= |b| && b[o] == PAD && Follows(b, want, o + 1, end, overload, p, v)
    ensures Follows(b, want, o, end, overload, p, v)
  {
    assert Parse(b, o, end) == Parse(b, o + 1, end);
  }

  lemma StopFollows(b: Bytes, want: int, o: nat, end: nat, overload: nat)
    requires end <= |b|
    requires o + 1 >= end || (b[o] != PAD && (b[o] == END || o + 2 + b[o + 1] > end))
    ensures Follows(b, want, o, end, overload, None, overload)
  {
    assert Parse(b, o, end) == [];
  }

  lemma HitArea(b: Bytes, want: int, o: nat, end: nat)
    requires IsOption(b, o, end) && b[o] == want
    ensures InArea(b, want, o, end) == [o] + InArea(b, want, o + 2 + b[o + 1], end)
  {
    ParseOption(b, o, end, want);
  }

  lemma HitFollows(b: Bytes, want: int, o: nat, end: nat, overload: nat)
    requires IsOption(b, o, end) && b[o] == want && want != OVERLOAD
    ensures Follows(b, want, o, end, overload, Some(o), overload)
  {
    HitArea(b, want, o, end);
    SkipOverload(b, o, end, overload, overload);
  }

  /** One scan: it finds the first matching option of the area, or it leaves the overload state of the whole area. */
  lemma {:induction false} ScanFollows(b: Bytes, o: nat, end: nat, want: int, overload: nat)
    requires end <= |b| && want != OVERLOAD
    ensures var (p, v) := Scan(b, o, end, want, overload); Follows(b, want, o, end, overload, p, v)
    decreases end - o
  {
    var (p, v) := Scan(b, o, end, want, overload);
    if o + 1 >= end {
      StopFollows(b, want, o, end, overload);
    } else if b[o] == PAD {
      ScanFollows(b, o + 1, end, want, overload);
      PadFollows(b, want, o, end, overload, p, v);
    } else if b[o] == END || o + 2 + b[o + 1] > end {
      StopFollows(b, want, o, end, overload);
    } else if b[o] == want {
      HitFollows(b, want, o, end, overload);
    } else {
      var w := if b[o] == OVERLOAD && overload == 0 && b[o + 1] == 1 && b[o + 2] <= 3 then b[o + 2] else overload;
      ScanFollows(b, o + 2 + b[o + 1], end, want, w);
      SkipFollows(b, want, o, end, overload, w, p, v);
    }
  }

  /** Entering the next area. */
  lemma LaterAreas(b: Bytes, want: int)
    requires |b| >= OPTIONS
    ensures Later(b, want, 3) == Remaining(b, want, FILE, MAGIC, 2)
    ensures Later(b, want, 1) == Remaining(b, want, FILE, MAGIC, 4)
    ensures Later(b, want, 2) == Remaining(b, want, SNAME, FILE, 4)
    ensures Later(b, want, 0) == [] && Later(b, want, 4) == []
  {
    var f, n := InArea(b, want, FILE, MAGIC), InArea(b, want, SNAME, FILE);
    assert [] + n == n && f + [] == f && n + [] == n;
  }

  predicate SearchOk(b: Bytes, want: int, o: nat, end: nat, overload: nat, p: Option<nat>, v: nat)
    requires OPTIONS <= |b| && end <= |b|
  {
    if p.None? then Remaining(b, want, o, end, overload) == []
    else
      && IsCursor(b, p.value)
      && Remaining(b, want, o, end, overload) ==
         [p.value] + Remaining(b, want, p.value + 2 + b[p.value + 1], AreaEnd(b, p.value), v)
  }

  lemma FoundRemaining(b: Bytes, want: int, o: nat, end: nat, overload: nat, p: nat, next: nat, v: nat)
    requires OPTIONS <= |b| && end <= |b|
    requires InArea(b, want, o, end) == [p] + InArea(b, want, next, end)
    requires NextOverload(b, Parse(b, o, end), overload) == NextOverload(b, Parse(b, next, end), v)
    ensures Remaining(b, want, o, end, overload) == [p] + Remaining(b, want, next, end, v)
  {
    Associate([p], InArea(b, want, next, end), Later(b, want, NextOverload(b, Parse(b, o, end), overload)));
  }

  lemma FoundCursor(b: Bytes, o: nat, end: nat, p: nat)
    requires OPTIONS <= |b| && end <= |b| && IsArea(b, o, end) && o <= p && IsOption(b, p, end)
    ensures AreaEnd(b, p) == end && IsCursor(b, p)
  {
  }

  lemma FoundInArea(b: Bytes, want: int, o: nat, end: nat, overload: nat, p: nat, v: nat)
    requires OPTIONS <= |b| && end <= |b| && IsArea(b, o, end) && o <= p && Follows(b, want, o, end, overload, Some(p), v)
    ensures SearchOk(b, want, o, end, overload, Some(p), v)
  {
    FoundCursor(b, o, end, p);
    FoundRemaining(b, want, o, end, overload, p, p + 2 + b[p + 1], v);
  }

  /** One `fetch_next`: the occurrences ahead are the one returned followed by those ahead of it. */
  lemma {:induction false} SearchFollows(b: Bytes, o: nat, end: nat, want: int, overload: nat)
    requires OPTIONS <= |b| && end <= |b| && IsArea(b, o, end) && want != OVERLOAD && overload <= 4
    ensures var (p, v) := Search(b, o, end, want, overload); SearchOk(b, want, o, end, overload, p, v) && v <= 4
    decreases if overload in {1, 3} then 2 else if overload == 2 then 1 else if overload == 0 then 3 else 0
  {
    ScanFollows(b, o, end, want, overload);
    ScanOverload(b, o, end, want, overload);
    var (p, v) := Scan(b, o, end, want, overload);
    if p.Some? {
      FoundInArea(b, want, o, end, overload, p.value, v);
    } else {
      LaterAreas(b, want);
      assert [] + Later(b, want, v) == Later(b, want, v);
      if v == 1 || v == 3 {
        SearchFollows(b, FILE, MAGIC, want, if v == 3 then 2 else 4);
      } else if v == 2 {
        SearchFollows(b, SNAME, FILE, want, 4);
      }
    }
  }

  // --- The code ----------------------------------------------------------------------------------

  method ScanArea(b: Bytes, start: nat, end: nat, want: int, overload: nat) returns (found: Option<nat>, v: nat)
    requires end <= |b|
    ensures (found, v) == Scan(b, start, end, want, overload)
  {
    var o := start;
    v := overload;
    while o + 1 < end
      invariant Scan(b, o, end, want, v) == Scan(b, start, end, want, overload)
      decreases end - o
    {
      if b[o] == PAD {
        o := o + 1;
      } else if b[o] == END || o + 2 + b[o + 1] > end {
        break;
      } else if b[o] == want {
        return Some(o), v;
      } else if b[o] == OVERLOAD && v == 0 && b[o + 1] == 1 && b[o + 2] <= 3 {
        v := b[o + 2];
        o := o + 3;
      } else {
        o := o + 2 + b[o + 1];
      }
    }
    return None, v;
  }

  method FetchNextOption(b: Bytes, want: int, overload: nat, o: Option<nat>) returns (found: Option<nat>, v: nat)
    requires Readable(b) && (o.Some? ==> IsCursor(b, o.value))
    ensures (found, v) == FetchNext(b, want, overload, o)
  {
    var at: nat, end: nat;
    v := overload;
    match o {
      case None =>
        if UDP_HEADER + |b| < OPTIONS || b[MAGIC..OPTIONS] != [0x63, 0x82, 0x53, 0x63] {
          return None, v;
        }
        at, end, v := OPTIONS, |b|, 0;
      case Some(p) =>
        if p < FILE {
          end := FILE;
        } else if p < MAGIC {
          end := MAGIC;
        } else {
          end := |b|;
        }
        at := p + 2 + b[p + 1];
    }
    while true
      invariant OPTIONS <= |b| && end <= |b|
      invariant Search(b, at, end, want, v) == FetchNext(b, want, overload, o)
      decreases if v in {1, 3} then 2 else if v == 2 then 1 else if v == 0 then 3 else 0
    {
      ScanOverload(b, at, end, want, v);
      found, v := ScanArea(b, at, end, want, v);
      if found.Some? {
        return;
      }
      if v == 1 || v == 3 {
        v := if v == 3 then 2 else 4;
        at, end := FILE, MAGIC;
      } else if v == 2 {
        v := 4;
        at, end := SNAME, FILE;
      } else {
        return None, v;
      }
    }
  }

  /** Iterating `fetch_next` from the start terminates and returns each occurrence exactly once, in reference order. */
  method FetchAll(b: Bytes, want: int) returns (ps: seq<nat>)
    requires |b| >= OPTIONS && want != OVERLOAD
    ensures ps == AllOccurrences(b, want)
  {
    ps := [];
    ghost var all := AllOccurrences(b, want);
    FirstAhead(b, want);
    var p, v := FetchNextOption(b, want, 0, None);
    ghost var ahead := all;
    assert all == ps + ahead;
    while p.Some?
      invariant Ahead(b, want, p, v, ahead) && all == ps + ahead
      decreases |ahead|
    {
      NextAhead(b, want, p.value, v, ahead);
      Associate(ps, [p.value], ahead[1..]);
      ahead := ahead[1..];
      ps := ps + [p.value];
      p, v := FetchNextOption(b, want, v, p);
    }
  }

  /** The occurrences not yet collected are `ahead`: the one in hand and those behind it. */
  ghost predicate Ahead(b: Bytes, want: int, p: Option<nat>, v: nat, ahead: seq<nat>) {
    && v <= 4
    && if p.None? then ahead == [] else
         && IsCursor(b, p.value)
         && ahead != []
         && ahead[0] == p.value
         && ahead[1..] == Remaining(b, want, p.value + 2 + b[p.value + 1], AreaEnd(b, p.value), v)
  }

  lemma FirstAhead(b: Bytes, want: int)
    requires |b| >= OPTIONS && want != OVERLOAD
    ensures var (p, v) := FetchNext(b, want, 0, None); Ahead(b, want, p, v, AllOccurrences(b, want))
  {
    if HasMagic(b) {
      AllIsRemaining(b, want);
      SearchAhead(b, OPTIONS, |b|, want, 0, AllOccurrences(b, want));
      FirstCall(b, want);
    }
  }

  lemma FirstCall(b: Bytes, want: int)
    requires |b| >= OPTIONS && HasMagic(b)
    ensures FetchNext(b, want, 0, None) == Search(b, OPTIONS, |b|, want, 0)
  {
  }

  lemma SearchAhead(b: Bytes, o: nat, end: nat, want: int, overload: nat, ahead: seq<nat>)
    requires OPTIONS <= |b| && end <= |b| && IsArea(b, o, end) && want != OVERLOAD && overload <= 4
    requires ahead == Remaining(b, want, o, end, overload)
    ensures var (p, v) := Search(b, o, end, want, overload); Ahead(b, want, p, v, ahead)
  {
    SearchFollows(b, o, end, want, overload);
  }

  lemma AllIsRemaining(b: Bytes, want: int)
    requires |b| >= OPTIONS && HasMagic(b)
    ensures AllOccurrences(b, want) == Remaining(b, want, OPTIONS, |b|, 0)
  {
  }

  /** What the first call to `fetch_next` returns. */
  lemma FirstFetched(b: Bytes, want: int)
    requires |b| >= OPTIONS
    ensures var (p, all) := (FetchNext(b, want, 0, None).0, AllOccurrences(b, want));
            if p.None? then all == [] else all != [] && all[0] == p.value && IsOption(b, p.value, |b|)
  {
    if want == OVERLOAD {
      FirstOverloadFetched(b);
      return;
    }
    FirstAhead(b, want);
    var (p, v) := FetchNext(b, want, 0, None);
    FirstOf(b, want, p, v, AllOccurrences(b, want));
  }

  /** p is the first option 52 at or after o, or there is none. */
  predicate FirstHit(b: Bytes, o: nat, end: nat, p: Option<nat>)
    requires end <= |b|
  {
    var all := InArea(b, OVERLOAD, o, end);
    if p.None? then all == [] && FirstOverload(b, Parse(b, o, end)) == 0
    else all != [] && all[0] == p.value && IsOption(b, p.value, end)
  }

  lemma StopHit(b: Bytes, o: nat, end: nat)
    requires end <= |b|
    requires o + 1 >= end || (b[o] != PAD && (b[o] == END || o + 2 + b[o + 1] > end))
    ensures FirstHit(b, o, end, None)
  {
    assert Parse(b, o, end) == [];
  }

  lemma PadHit(b: Bytes, o: nat, end: nat, p: Option<nat>)
    requires o + 1 < end <= |b| && b[o] == PAD && FirstHit(b, o + 1, end, p)
    ensures FirstHit(b, o, end, p)
  {
    assert Parse(b, o, end) == Parse(b, o + 1, end);
  }

  lemma FoundHit(b: Bytes, o: nat, end: nat)
    requires IsOption(b, o, end) && b[o] == OVERLOAD
    ensures FirstHit(b, o, end, Some(o))
  {
    ParseOption(b, o, end, OVERLOAD);
  }

  lemma SkipHit(b: Bytes, o: nat, end: nat, p: Option<nat>)
    requires IsOption(b, o, end) && b[o] != OVERLOAD && FirstHit(b, o + 2 + b[o + 1], end, p)
    ensures FirstHit(b, o, end, p)
  {
    ParseOption(b, o, end, OVERLOAD);
    var rest := InArea(b, OVERLOAD, o + 2 + b[o + 1], end);
    assert [] + rest == rest;
  }

  /** A scan for the overload option itself meets no other one on its way. */
  lemma {:induction false} ScanForOverload(b: Bytes, o: nat, end: nat, want: int, overload: nat)
    requires end <= |b| && want == OVERLOAD && overload == 0
    ensures var (p, v) := Scan(b, o, end, want, overload); v == 0 && FirstHit(b, o, end, p)
    decreases end - o
  {
    var (p, v) := Scan(b, o, end, want, overload);
    if o + 1 >= end {
      StopHit(b, o, end);
    } else if b[o] == PAD {
      ScanForOverload(b, o + 1, end, want, overload);
      PadHit(b, o, end, p);
    } else if b[o] == END || o + 2 + b[o + 1] > end {
      StopHit(b, o, end);
    } else if b[o] == want {
      FoundHit(b, o, end);
    } else {
      ScanForOverload(b, o + 2 + b[o + 1], end, want, overload);
      ScanPast(b, o, end, want, overload);
      SkipHit(b, o, end, p);
    }
  }

  lemma ScanPast(b: Bytes, o: nat, end: nat, want: int, overload: nat)
    requires IsOption(b, o, end) && b[o] != want && want == OVERLOAD
    ensures Scan(b, o, end, want, overload) == Scan(b, o + 2 + b[o + 1], end, want, overload)
  {
  }

  lemma FirstOverloadFetched(b: Bytes)
    requires |b| >= OPTIONS
    ensures var (p, all) := (FetchNext(b, OVERLOAD, 0, None).0, AllOccurrences(b, OVERLOAD));
            if p.None? then all == [] else all != [] && all[0] == p.value && IsOption(b, p.value, |b|)
  {
    if HasMagic(b) {
      FirstCall(b, OVERLOAD);
      ScanForOverload(b, OPTIONS, |b|, OVERLOAD, 0);
    }
  }

  lemma FirstOf(b: Bytes, want: int, p: Option<nat>, v: nat, ahead: seq<nat>)
    requires Ahead(b, want, p, v, ahead)
    ensures if p.None? then ahead == [] else ahead != [] && ahead[0] == p.value && IsOption(b, p.value, |b|)
  {
  }

  lemma RestAhead(b: Bytes, want: int, p: nat, v: nat, ahead: seq<nat>)
    requires Ahead(b, want, Some(p), v, ahead)
    ensures IsCursor(b, p) && ahead != [] && ahead == [p] + ahead[1..]
    ensures ahead[1..] == Remaining(b, want, p + 2 + b[p + 1], AreaEnd(b, p), v)
  {
    HeadAndRest(ahead);
  }

  lemma HeadAndRest<T>(s: seq<T>)
    requires s != []
    ensures s == [s[0]] + s[1..]
  {
  }

  lemma NextFound(b: Bytes, want: int, p: nat, v: nat, rest: seq<nat>, r: (Option<nat>, nat))
    requires IsCursor(b, p) && want != OVERLOAD && v <= 4 && r == FetchNext(b, want, v, Some(p))
    requires rest == Remaining(b, want, p + 2 + b[p + 1], AreaEnd(b, p), v)
    ensures Ahead(b, want, r.0, r.1, rest)
  {
    NextCall(b, want, p, v);
    SearchAhead(b, p + 2 + b[p + 1], AreaEnd(b, p), want, v, rest);
  }

  lemma NextAhead(b: Bytes, want: int, p: nat, v: nat, ahead: seq<nat>)
    requires Ahead(b, want, Some(p), v, ahead) && want != OVERLOAD
    ensures ahead != [] && ahead == [p] + ahead[1..]
    ensures var (q, w) := FetchNext(b, want, v, Some(p)); Ahead(b, want, q, w, ahead[1..])
  {
    RestAhead(b, want, p, v, ahead);
    NextFound(b, want, p, v, ahead[1..], FetchNext(b, want, v, Some(p)));
  }

  lemma NextCall(b: Bytes, want: int, p: nat, v: nat)
    requires IsCursor(b, p)
    ensures IsArea(b, p + 2 + b[p + 1], AreaEnd(b, p))
    ensures FetchNext(b, want, v, Some(p)) == Search(b, p + 2 + b[p + 1], AreaEnd(b, p), want, v)
  {
  }

  /** `fetch`: the contents of the first occurrence, if its length is the expected one. */
  method Fetch(b: Bytes, want: int, expected: int) returns (r: Option<Bytes>)
    requires Readable(b)
    ensures |b| < OPTIONS ==> r.None?
    ensures |b| >= OPTIONS ==>
              var all := AllOccurrences(b, want);
              && (r.Some? <==> all != [] && all[0] + 1 < |b| && b[all[0] + 1] == expected)
              && (r.Some? ==> all[0] + 2 + expected <= |b| && r.value == b[all[0] + 2..all[0] + 2 + expected])
  {
    if |b| >= OPTIONS {
      FirstFetched(b, want);
    }
    var o, v := FetchNextOption(b, want, 0, None);
    if o.Some? && b[o.value + 1] == expected {
      return Some(b[o.value + 2..o.value + 2 + expected]);
    }
    return None;
  }
}
