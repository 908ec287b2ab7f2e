/**
  The NAT-PT sequence mapping: `Mapping6::update_seqno_delta` and `delta_for` in
  ip6_natpt/package/tcpaddresstranslator.{cc,hh}.  Positions in the byte stream are unbounded integers; a sequence number
  is a position modulo 2^32.  Deltas are kept modulo 2^32, as they are only ever added to sequence numbers.
 */
module SequenceShift {
  const MODULUS := 0x1_0000_0000
  const HALF := 0x8000_0000

  type U32 = x: int | 0 <= x < MODULUS

  function Wire(x: int): U32 {
    x % MODULUS
  }

  /** The (int) cast in the SEQ_ macros. */
  function Signed(w: U32): int {
    if w < HALF then w else w - MODULUS
  }

  predicate SeqLeq(a: U32, b: U32) {
    Signed(Wire(a - b)) <= 0
  }

  predicate SeqGeq(a: U32, b: U32) {
    Signed(Wire(a - b)) >= 0
  }

  datatype Shift = Shift(trigger: U32, delta: U32, oldDelta: U32)

  const FRESH := Shift(0, 0, 0)

  /** `update_seqno_delta`: the new fields, and whether the edit was accepted. */
  function Update(m: Shift, trigger: U32, d: int): (Shift, bool) {
    if SeqLeq(trigger, m.trigger) && m != FRESH then (m, false)
    else (Shift(trigger, Wire(m.delta + d), m.delta), true)
  }

  function DeltaFor(m: Shift, s: U32): U32 {
    if SeqGeq(s, m.trigger) then m.delta else m.oldDelta
  }

  // --- Arithmetic modulo 2^32 ------------------------------------------------------------------

  lemma WireOnly(x: int, k: int)
    ensures Wire(x + k * MODULUS) == Wire(x)
  {
  }

  lemma WireAdd(x: int, y: int)
    ensures Wire(Wire(x) + y) == Wire(x + y) && Wire(Wire(x) - y) == Wire(x - y)
    ensures Wire(y - Wire(x)) == Wire(y - x)
  {
    var q := x / MODULUS;
    assert x == q * MODULUS + Wire(x);
    WireOnly(Wire(x) + y, q);
    WireOnly(Wire(x) - y, q);
    WireOnly(y - x, q);
  }

  predicate Within(a: int, b: int) {
    -HALF <= a - b < HALF
  }

  lemma WireDiff(a: int, b: int)
    ensures Wire(Wire(a) - Wire(b)) == Wire(a - b)
  {
    WireAdd(a, Wire(b));
    WireAdd(b, a);
  }

  lemma SignedSmall(d: int)
    requires -HALF <= d < HALF
    ensures Signed(Wire(d)) == d
  {
  }

  /** Inside half the number space the wire comparisons decide the order of positions. */
  lemma WindowOrder(a: int, b: int)
    requires Within(a, b)
    ensures SeqLeq(Wire(a), Wire(b)) <==> a <= b
    ensures SeqGeq(Wire(a), Wire(b)) <==> a >= b
  {
    WireDiff(a, b);
    SignedSmall(a - b);
  }

  // --- The reference: accepted edits ------------------------------------------------------------------

  /** A payload edit that ends at position `pos` and lengthens the stream by d. */
  datatype Edit = Edit(pos: int, d: int)

  function Last(acc: seq<Edit>): Edit
    requires acc != []
  {
    acc[|acc| - 1]
  }

  /** An edit counts if it lies beyond all those counted before. */
  predicate Beyond(acc: seq<Edit>, e: Edit) {
    acc == [] || e.pos > Last(acc).pos
  }

  function Accept(acc: seq<Edit>, e: Edit): seq<Edit> {
    if Beyond(acc, e) then acc + [e] else acc
  }

  function AcceptAll(es: seq<Edit>): seq<Edit> {
    if es == [] then [] else Accept(AcceptAll(es[..|es| - 1]), es[|es| - 1])
  }

  function Total(acc: seq<Edit>): int {
    if acc == [] then 0 else Total(acc[..|acc| - 1]) + Last(acc).d
  }

  /** The length changes of the edits at or before position s. */
  function ShiftAt(acc: seq<Edit>, s: int): int {
    if acc == [] then 0 else ShiftAt(acc[..|acc| - 1], s) + if Last(acc).pos <= s then Last(acc).d else 0
  }

  predicate Increasing(acc: seq<Edit>) {
    forall i, j :: 0 <= i < j < |acc| ==> acc[i].pos < acc[j].pos
  }

  lemma {:induction false} AcceptAllIncreasing(es: seq<Edit>)
    ensures Increasing(AcceptAll(es))
  {
    if es != [] {
      AcceptAllIncreasing(es[..|es| - 1]);
    }
  }

  predicate NewOrSeen(front: seq<Edit>, e: Edit) {
    e in front || forall j :: 0 <= j < |front| ==> front[j].pos < e.pos
  }

  /** Edits arrive in order: each one is new and beyond the earlier ones, or a retransmission of one of them. */
  predicate InOrder(es: seq<Edit>) {
    es == [] || (InOrder(es[..|es| - 1]) && NewOrSeen(es[..|es| - 1], Last(es)))
  }

  ghost predicate SameEdits(a: seq<Edit>, b: seq<Edit>) {
    forall e :: e in a <==> e in b
  }

  lemma AcceptOnce(acc: seq<Edit>, front: seq<Edit>, e: Edit)
    requires Increasing(acc) && SameEdits(acc, front)
    requires NewOrSeen(front, e)
    ensures SameEdits(Accept(acc, e), front + [e])
  {
    if acc != [] && e !in front {
      assert Last(acc) in acc;
    } else if acc != [] {
      assert e in acc;
    }
  }

  /** With retransmissions dropped, every edit of the run counts, once. */
  lemma {:induction false} RetransmitsCountOnce(es: seq<Edit>)
    requires InOrder(es)
    ensures Increasing(AcceptAll(es))
    ensures SameEdits(AcceptAll(es), es)
  {
    AcceptAllIncreasing(es);
    if es != [] {
      var (front, e) := (es[..|es| - 1], es[|es| - 1]);
      RetransmitsCountOnce(front);
      AcceptOnce(AcceptAll(front), front, e);
      assert es == front + [e];
    }
  }

  // --- The mapping follows the reference ------------------------------------------------------------------

  ghost predicate Tracks(m: Shift, acc: seq<Edit>) {
    && Increasing(acc)
    && if acc == [] then m == FRESH else
         && m.trigger == Wire(Last(acc).pos)
         && m.delta == Wire(Total(acc))
         && m.oldDelta == Wire(Total(acc[..|acc| - 1]))
  }

  predicate InWindow(acc: seq<Edit>, s: int) {
    acc != [] ==> Within(s, Last(acc).pos)
  }

  /** Which edits the code accepts: those beyond, and any edit at all while its fields are all zero. */
  lemma AcceptedExactly(m: Shift, acc: seq<Edit>, e: Edit)
    requires Tracks(m, acc) && InWindow(acc, e.pos)
    ensures Update(m, Wire(e.pos), e.d).1 <==> Beyond(acc, e) || m == FRESH
  {
    if acc != [] {
      WindowOrder(e.pos, Last(acc).pos);
    }
  }

  /** A mapping that has accepted edits but has gone back to all zeros. */
  predicate LooksFresh(m: Shift, acc: seq<Edit>) {
    acc != [] && m == FRESH
  }

  /** The failing branch: such a mapping takes an edit that is not beyond for a first one. */
  predicate Confuses(m: Shift, acc: seq<Edit>, e: Edit) {
    LooksFresh(m, acc) && !Beyond(acc, e) && !(Wire(e.pos) == 0 && Wire(e.d) == 0)
  }

  lemma UpdateTracks(m: Shift, acc: seq<Edit>, e: Edit)
    requires Tracks(m, acc) && InWindow(acc, e.pos)
    ensures Tracks(Update(m, Wire(e.pos), e.d).0, Accept(acc, e)) <==> !Confuses(m, acc, e)
  {
    AcceptedExactly(m, acc, e);
    if Beyond(acc, e) {
      assert (acc + [e])[..|acc|] == acc;
      WireAdd(Total(acc), e.d);
    }
  }

  /** Only an edit of length change 0 (modulo 2^32) that ends at sequence number 0 leaves such a mapping. */
  lemma LooksFreshOnly(m: Shift, acc: seq<Edit>)
    requires Tracks(m, acc)
    ensures LooksFresh(m, acc) <==>
            acc != [] && Wire(Last(acc).pos) == 0 && Wire(Last(acc).d) == 0 && Wire(Total(acc)) == 0
  {
    if acc != [] {
      SameDelta(Total(acc[..|acc| - 1]), Last(acc).d);
    }
  }

  function Run(es: seq<Edit>): Shift {
    if es == [] then FRESH else Update(Run(es[..|es| - 1]), Wire(es[|es| - 1].pos), es[|es| - 1].d).0
  }

  /** Every edit lies in the window of the last accepted one, and none is taken for a first one. */
  predicate Orderly(es: seq<Edit>) {
    es == [] ||
    var (front, e) := (es[..|es| - 1], es[|es| - 1]);
    var acc := AcceptAll(front);
    Orderly(front) && InWindow(acc, e.pos) && !Confuses(Run(front), acc, e)
  }

  lemma {:induction false} RunTracks(es: seq<Edit>)
    requires Orderly(es)
    ensures Tracks(Run(es), AcceptAll(es))
  {
    if es != [] {
      var front := es[..|es| - 1];
      RunTracks(front);
      UpdateTracks(Run(front), AcceptAll(front), es[|es| - 1]);
    }
  }

  lemma {:induction false} ShiftIsTotal(acc: seq<Edit>, s: int)
    requires Increasing(acc) && (acc != [] ==> s >= Last(acc).pos)
    ensures ShiftAt(acc, s) == Total(acc)
  {
    if |acc| > 1 {
      assert acc[|acc| - 2].pos < Last(acc).pos;
      ShiftIsTotal(acc[..|acc| - 1], s);
    }
  }

  /** Positions for which a mapping that keeps two deltas still knows the shift. */
  predicate Known(acc: seq<Edit>, s: int) {
    InWindow(acc, s) && (|acc| > 1 ==> s >= acc[|acc| - 2].pos)
  }

  lemma DeltaTracks(m: Shift, acc: seq<Edit>, s: int)
    requires Tracks(m, acc) && Known(acc, s)
    ensures DeltaFor(m, Wire(s)) == Wire(ShiftAt(acc, s))
  {
    if acc != [] {
      WindowOrder(s, Last(acc).pos);
      if s >= Last(acc).pos {
        ShiftIsTotal(acc, s);
      } else if |acc| > 1 {
        ShiftIsTotal(acc[..|acc| - 1], s);
      }
    }
  }

  /** For every orderly run, `delta_for` is the sum of the accepted length changes at or before s. */
  lemma DeltaIsSum(es: seq<Edit>, s: int)
    requires Orderly(es) && Known(AcceptAll(es), s)
    ensures DeltaFor(Run(es), Wire(s)) == Wire(ShiftAt(AcceptAll(es), s))
  {
    RunTracks(es);
    DeltaTracks(Run(es), AcceptAll(es), s);
  }

  // --- Translated segments ------------------------------------------------------------------------------------

  function Translated(m: Shift, s: int): U32 {
    Wire(s + DeltaFor(m, Wire(s)))
  }

  /** The length changes of the edits that end inside (a, b]. */
  function Between(acc: seq<Edit>, a: int, b: int): int {
    if acc == [] then 0
    else Between(acc[..|acc| - 1], a, b) + if a < Last(acc).pos <= b then Last(acc).d else 0
  }

  lemma {:induction false} ShiftSplits(acc: seq<Edit>, a: int, b: int)
    requires a <= b
    ensures ShiftAt(acc, b) == ShiftAt(acc, a) + Between(acc, a, b)
  {
    if acc != [] {
      ShiftSplits(acc[..|acc| - 1], a, b);
    }
  }

  /** The segment [a, b), grown by the edits it holds, ends where the translation of the next segment begins. */
  predicate Meets(m: Shift, acc: seq<Edit>, a: int, b: int) {
    Wire(Translated(m, a) + (b - a) + Between(acc, a, b)) == Translated(m, b)
  }

  lemma ContiguousFor(m: Shift, acc: seq<Edit>, a: int, b: int)
    requires Tracks(m, acc) && a <= b && Known(acc, a) && Known(acc, b)
    ensures Meets(m, acc, a, b)
  {
    DeltaTracks(m, acc, a);
    DeltaTracks(m, acc, b);
    ShiftSplits(acc, a, b);
    MeetAt(a, b, DeltaFor(m, Wire(a)), DeltaFor(m, Wire(b)), ShiftAt(acc, a), Between(acc, a, b));
  }

  lemma ContiguousRun(es: seq<Edit>, m: Shift, acc: seq<Edit>, a: int, b: int)
    requires m == Run(es) && acc == AcceptAll(es)
    requires Orderly(es) && a <= b && Known(acc, a) && Known(acc, b)
    ensures Meets(m, acc, a, b)
  {
    RunTracks(es);
    ContiguousFor(m, acc, a, b);
  }

  /** Translated segments stay contiguous. */
  lemma Contiguous(es: seq<Edit>, a: int, b: int)
    requires Orderly(es) && a <= b && Known(AcceptAll(es), a) && Known(AcceptAll(es), b)
    ensures Meets(Run(es), AcceptAll(es), a, b)
  {
    ContiguousRun(es, Run(es), AcceptAll(es), a, b);
  }

  lemma MeetAt(a: int, b: int, da: U32, db: U32, x: int, k: int)
    requires da == Wire(x) && db == Wire(x + k)
    ensures Wire(Wire(a + da) + (b - a) + k) == Wire(b + db)
  {
    Meet(a, b, x, k);
  }

  lemma Meet(a: int, b: int, x: int, k: int)
    ensures Wire(Wire(a + Wire(x)) + (b - a) + k) == Wire(b + Wire(x + k))
  {
    WireAdd(x, a);
    WireAdd(x + k, b);
    WireAdd(a + x, (b - a) + k);
  }

  // --- Acknowledgements -----------------------------------------------------------------------------------------

  /** An acknowledgement taken back from the translated stream. */
  function TakenBack(m: Shift, t: int): U32 {
    Wire(Wire(t) - DeltaFor(m, Wire(t)))
  }

  predicate SameSide(acc: seq<Edit>, s: int, t: int) {
    acc == [] || (t >= Last(acc).pos <==> s >= Last(acc).pos) || Wire(Last(acc).d) == 0
  }

  /** The two deltas a mapping keeps are equal only if the last edit changed no length. */
  lemma SameSideSameDelta(m: Shift, acc: seq<Edit>, s: int, t: int)
    requires Tracks(m, acc) && InWindow(acc, s) && InWindow(acc, t)
    ensures DeltaFor(m, Wire(t)) == DeltaFor(m, Wire(s)) <==> SameSide(acc, s, t)
  {
    if acc != [] {
      WindowOrder(s, Last(acc).pos);
      WindowOrder(t, Last(acc).pos);
      SameDelta(Total(acc[..|acc| - 1]), Last(acc).d);
    }
  }

  /**
    `apply` asks the reverse mapping for the delta at the translated number, not at the original one.  An
    acknowledgement of s comes back as s exactly when both lie on the same side of the last trigger, or the last edit
    changed no length.
   */
  lemma AckReturnsExactly(es: seq<Edit>, s: int, t: int)
    requires Orderly(es) && t == s + ShiftAt(AcceptAll(es), s)
    requires Known(AcceptAll(es), s) && InWindow(AcceptAll(es), t)
    ensures TakenBack(Run(es), t) == Wire(s) <==> SameSide(AcceptAll(es), s, t)
  {
    RunTracks(es);
    AckFor(Run(es), AcceptAll(es), s, t);
  }

  lemma AckFor(m: Shift, acc: seq<Edit>, s: int, t: int)
    requires Tracks(m, acc) && t == s + ShiftAt(acc, s) && Known(acc, s) && InWindow(acc, t)
    ensures TakenBack(m, t) == Wire(s) <==> SameSide(acc, s, t)
  {
    DeltaTracks(m, acc, s);
    SameSideSameDelta(m, acc, s, t);
    TakeBack(s, t, ShiftAt(acc, s), DeltaFor(m, Wire(t)));
  }

  lemma SameDelta(x: int, d: int)
    ensures Wire(x + d) == Wire(x) <==> Wire(d) == 0
  {
    if Wire(x + d) == Wire(x) {
      WireCancel(x + d, x, -x);
    }
    if Wire(d) == 0 {
      WireCancel(d, 0, x);
    }
  }

  lemma WireCancel(a: int, b: int, k: int)
    requires Wire(a) == Wire(b)
    ensures Wire(a + k) == Wire(b + k)
  {
    WireAdd(a, k);
    WireAdd(b, k);
  }

  lemma TakeBack(s: int, t: int, x: int, delta: U32)
    requires t == s + x
    ensures Wire(Wire(t) - delta) == Wire(s) <==> delta == Wire(x)
  {
    WireAdd(t, delta);
    if Wire(t - delta) == Wire(s) {
      WireCancel(t - delta, s, delta - s);
    }
    if delta == Wire(x) {
      WireAdd(x, t);
    }
  }

  /** An edit that shortens the stream: the acknowledgement of the byte behind it comes back too small. */
  lemma AckComesBackWrong()
    ensures var es := [Edit(1000, -5)];
            Orderly(es) && Known(AcceptAll(es), 1000) && TakenBack(Run(es), 1000 + ShiftAt(AcceptAll(es), 1000)) == 995
  {
    var es := [Edit(1000, -5)];
    assert es[..0] == [];
    assert AcceptAll(es) == Accept([], es[0]) == es;
    assert Run(es) == Shift(1000, Wire(-5), 0);
  }

  /** What a run leads to. */
  predicate Leads(es: seq<Edit>, m: Shift, acc: seq<Edit>) {
    InOrder(es) && Run(es) == m && AcceptAll(es) == acc
  }

  lemma LeadsOn(es: seq<Edit>, m: Shift, acc: seq<Edit>, e: Edit)
    requires Leads(es, m, acc) && NewOrSeen(es, e)
    ensures Leads(es + [e], Update(m, Wire(e.pos), e.d).0, Accept(acc, e))
  {
    assert (es + [e])[..|es|] == es;
  }

  const LONGER := Edit(MODULUS - 10, 5)
  const SHORTER := Edit(MODULUS - 6, -5)
  const NEUTRAL := Edit(MODULUS, 0)

  lemma AfterLonger()
    ensures Leads([LONGER], Shift(MODULUS - 10, 5, 0), [LONGER])
  {
    LeadsOn([], FRESH, [], LONGER);
    assert [] + [LONGER] == [LONGER];
  }

  lemma AfterShorter()
    ensures Leads([LONGER, SHORTER], Shift(MODULUS - 6, 0, 5), [LONGER, SHORTER])
  {
    AfterLonger();
    LeadsOn([LONGER], Shift(MODULUS - 10, 5, 0), [LONGER], SHORTER);
    assert [LONGER] + [SHORTER] == [LONGER, SHORTER];
  }

  lemma AfterNeutral()
    ensures Leads([LONGER, SHORTER, NEUTRAL], FRESH, [LONGER, SHORTER, NEUTRAL])
  {
    AfterShorter();
    LeadsOn([LONGER, SHORTER], Shift(MODULUS - 6, 0, 5), [LONGER, SHORTER], NEUTRAL);
    assert [LONGER, SHORTER] + [NEUTRAL] == [LONGER, SHORTER, NEUTRAL];
  }

  lemma NothingInAll()
    ensures Total([LONGER, SHORTER, NEUTRAL]) == 0
  {
    assert [LONGER, SHORTER, NEUTRAL][..2] == [LONGER, SHORTER];
    assert [LONGER, SHORTER][..1] == [LONGER] && [LONGER][..0] == [];
    assert Total([LONGER]) == 5 && Total([LONGER, SHORTER]) == 0;
  }

  /** A retransmission counted twice: the mapping has gone back to all zeros. */
  lemma CountedTwice()
    ensures var es := [LONGER, SHORTER, NEUTRAL, SHORTER];
            Leads(es, Shift(MODULUS - 6, Wire(-5), 0), [LONGER, SHORTER, NEUTRAL])
    ensures Total([LONGER, SHORTER, NEUTRAL]) == 0
  {
    var three := [LONGER, SHORTER, NEUTRAL];
    AfterNeutral();
    NothingInAll();
    assert three[1] == SHORTER;
    LeadsOn(three, FRESH, three, SHORTER);
    assert three + [SHORTER] == [LONGER, SHORTER, NEUTRAL, SHORTER];
  }

  // --- For whole runs ---------------------------------------------------------------------------------------------

  /** Every edit lies in the window of the last accepted one. */
  predicate Windowed(es: seq<Edit>) {
    es == [] || (Windowed(es[..|es| - 1]) && InWindow(AcceptAll(es[..|es| - 1]), Last(es).pos))
  }

  /** The mapping follows the accepted edits after every prefix of the run. */
  ghost predicate TracksThroughout(es: seq<Edit>) {
    Tracks(Run(es), AcceptAll(es)) && (es == [] || TracksThroughout(es[..|es| - 1]))
  }

  /** Inside the window, the runs a mapping follows to the end are exactly those in which no edit confuses it. */
  lemma {:induction false} TracksExactly(es: seq<Edit>)
    requires Windowed(es)
    ensures TracksThroughout(es) <==> Orderly(es)
  {
    if es != [] {
      var front := es[..|es| - 1];
      TracksExactly(front);
      if TracksThroughout(front) {
        LastTracks(es, Run(front), AcceptAll(front));
      }
    }
  }

  lemma LastTracks(es: seq<Edit>, m: Shift, acc: seq<Edit>)
    requires es != [] && m == Run(es[..|es| - 1]) && acc == AcceptAll(es[..|es| - 1])
    requires Tracks(m, acc) && InWindow(acc, Last(es).pos)
    ensures Tracks(Run(es), AcceptAll(es)) <==> !Confuses(m, acc, Last(es))
  {
    UpdateTracks(m, acc, Last(es));
  }
}

/** The incremental checksum of `Mapping6::apply` (section 3 of RFC 1624), against the ones' complement sum. */
module TCPChecksum {
  import opened Common
  import opened SequenceShift

  const ONES := 0xFFFF

  function Hi(x: U32): U16 { x / 0x1_0000 }

  function Lo(x: U32): U16 { x % 0x1_0000 }

  // --- The reference -------------------------------------------------------------------------------

  function Sum(words: seq<U16>): nat {
    if words == [] then 0 else words[0] + Sum(words[1..])
  }

  /** End-around carries until nothing is left to carry. */
  function Fold(x: nat): U16 {
    if x <= ONES then x else Fold(x % 0x1_0000 + x / 0x1_0000)
  }

  /** The checksummed words that `apply` leaves alone, the protocol number of the pseudo header set apart, and the rest. */
  datatype Segment = Segment(others: seq<U16>, seqno: U32, ack: U32, sum: U16)

  const TCP_PROTOCOL := 6

  function Words(s: Segment): nat {
    TCP_PROTOCOL + Sum(s.others) + Hi(s.seqno) + Lo(s.seqno) + Hi(s.ack) + Lo(s.ack) + s.sum
  }

  predicate Verifies(s: Segment) {
    Fold(Words(s)) == ONES
  }

  // --- The code ------------------------------------------------------------------------------------------

  /** What replacing a word in the header adds to csum_delta. */
  function Change(was: U32, now: U32): (d: nat)
    ensures d <= 4 * ONES
  {
    if was == now then 0 else (ONES - Hi(was)) + (ONES - Lo(was)) + Hi(now) + Lo(now)
  }

  /** (x & 0xFFFF) + (x >> 16), then the same with a 16-bit result. */
  function Fold2(x: nat): U16 {
    var y := x % 0x1_0000 + x / 0x1_0000;
    (y + y / 0x1_0000) % 0x1_0000
  }

  function Adjust(sum: U16, delta: nat): U16 {
    ONES - Fold2((ONES - sum) + delta)
  }

  function Rewrite(s: Segment, seqno: U32, ack: U32, csumDelta: U16): Segment {
    s.(seqno := seqno, ack := ack, sum := Adjust(s.sum, csumDelta + Change(s.seqno, seqno) + Change(s.ack, ack)))
  }

  /** The delta `initialize` computes from the first six words of the two flow identifiers. */
  function InitialDelta(a: seq<U16>, b: seq<U16>): U16
    requires |a| >= 6 && |b| >= 6
  {
    var d := (ONES - a[0]) + b[0] + (ONES - a[1]) + b[1] + (ONES - a[2]) + b[2] + (ONES - a[3]) + b[3];
    var e := d % 0x1_0000 + d / 0x1_0000;
    Fold2(e + (ONES - a[4]) + b[4] + (ONES - a[5]) + b[5])
  }

  // --- Proofs ------------------------------------------------------------------------------------------------

  /** x and y are equal modulo 65535. */
  predicate Same(x: int, y: int) {
    (x - y) % ONES == 0
  }

  lemma Multiple(k: int)
    ensures k * ONES % ONES == 0
  {
  }

  lemma SameBy(x: int, y: int, k: int)
    requires x == y + k * ONES
    ensures Same(x, y)
  {
    Multiple(k);
  }

  lemma SameSum(x: int, y: int, a: int, b: int)
    requires Same(x, y) && Same(a, b)
    ensures Same(x + a, y + b) && Same(y, x) && Same(x - a, y - b)
  {
    var j, k := (x - y) / ONES, (a - b) / ONES;
    SameBy(x + a, y + b, j + k);
    SameBy(y, x, -j);
    SameBy(x - a, y - b, j - k);
  }

  lemma SameAdds(x: int, c: int, y: int)
    requires Same(x + c, y) && Same(y, 0)
    ensures Same(x, 0) <==> Same(c, 0)
  {
    if Same(x, 0) {
      SameSum(x + c, y, x, 0);
      SameSum(c, y, y, 0);
    }
    if Same(c, 0) {
      SameSum(x + c, y, c, 0);
      SameSum(x, y, y, 0);
    }
  }

  lemma CarryKeeps(x: nat)
    ensures Same(x % 0x1_0000 + x / 0x1_0000, x)
    ensures x > 0 ==> x % 0x1_0000 + x / 0x1_0000 > 0
  {
    SameBy(x % 0x1_0000 + x / 0x1_0000, x, -(x / 0x1_0000));
  }

  lemma {:induction false} FoldMeans(x: nat)
    ensures Same(Fold(x), x) && (Fold(x) == 0 <==> x == 0)
  {
    if x > ONES {
      var y := x % 0x1_0000 + x / 0x1_0000;
      CarryKeeps(x);
      FoldMeans(y);
      SameSum(Fold(y), y, y, x);
      assert Same(Fold(y) + y, y + x);
    }
  }

  /** The checksum verifies exactly when the plain sum is a positive multiple of 65535. */
  lemma VerifiesExactly(x: nat)
    ensures Fold(x) == ONES <==> x > 0 && Same(x, 0)
  {
    FoldMeans(x);
    SameZero(Fold(x), x);
    SmallSame(Fold(x));
  }

  lemma SameZero(x: int, y: int)
    requires Same(x, y)
    ensures Same(x, 0) <==> Same(y, 0)
  {
    if Same(y, 0) {
      SameSum(x, y, y, 0);
    } else if Same(x, 0) {
      SameSum(x, y, x, 0);
      SameSum(0, y, 0, 0);
      assert false;
    }
  }

  lemma SmallSame(x: U16)
    ensures Same(x, 0) <==> x == 0 || x == ONES
  {
  }

  lemma Conclude(x: nat, c: U16, y: nat)
    requires x > 0 && Same(x + c, y) && Fold(y) == ONES
    ensures Fold(x) == ONES <==> c == 0 || c == ONES
  {
    VerifiesExactly(x);
    VerifiesExactly(y);
    SameAdds(x, c, y);
    SmallSame(c);
  }

  /** Two folds are enough for every sum the code can build. */
  lemma Fold2Means(x: nat)
    requires x <= 16 * ONES
    ensures Same(Fold2(x), x)
  {
    var y := x % 0x1_0000 + x / 0x1_0000;
    CarryKeeps(x);
    assert y <= ONES + 16;
    SameBy(Fold2(x), y, if y > ONES then -1 else 0);
    SameSum(Fold2(x), y, y, x);
  }

  /** Number of complemented half words in a change. */
  function Complements(was: U32, now: U32): int {
    if was == now then 0 else 2
  }

  lemma AdjustMeans(sum: U16, delta: nat)
    requires delta <= 15 * ONES
    ensures Same(Adjust(sum, delta) + delta, sum)
  {
    var x := (ONES - sum) + delta;
    Fold2Means(x);
    SameSum(Fold2(x), x, x, x);
    assert Adjust(sum, delta) + delta - sum == x - Fold2(x);
  }

  /** The rewrite moves the plain sum by the mapping's own delta, modulo 65535. */
  lemma RewriteSum(s: Segment, seqno: U32, ack: U32, csumDelta: U16)
    ensures Same(Words(Rewrite(s, seqno, ack, csumDelta)) + csumDelta, Words(s))
  {
    var t := Rewrite(s, seqno, ack, csumDelta);
    var delta := csumDelta + Change(s.seqno, seqno) + Change(s.ack, ack);
    AdjustMeans(s.sum, delta);
    WordsChange(s, t);
    Balanced(t.sum + delta, s.sum, Words(t) + csumDelta, Words(s),
             Complements(s.seqno, seqno) + Complements(s.ack, ack));
  }

  lemma WordsChange(s: Segment, t: Segment)
    requires t.others == s.others
    ensures t.sum + Change(s.seqno, t.seqno) + Change(s.ack, t.ack) - s.sum ==
            Words(t) - Words(s) + (Complements(s.seqno, t.seqno) + Complements(s.ack, t.ack)) * ONES
  {
    ChangeMeans(s.seqno, t.seqno);
    ChangeMeans(s.ack, t.ack);
  }

  /** A change is the difference of the two words, up to the complements it takes. */
  lemma ChangeMeans(was: U32, now: U32)
    ensures Change(was, now) == Hi(now) + Lo(now) - Hi(was) - Lo(was) + Complements(was, now) * ONES
  {
  }

  lemma Balanced(x: int, y: int, v: int, w: int, k: int)
    requires Same(x, y) && x - y == v - w + k * ONES
    ensures Same(v, w)
  {
    SameBy(x - y, v - w, k);
    SameZero(x - y, v - w);
  }

  /** A segment that verified before the rewrite verifies after it exactly when the mapping's own delta is 0 or 0xFFFF. */
  lemma ChecksumExactly(s: Segment, seqno: U32, ack: U32, csumDelta: U16)
    requires Verifies(s)
    ensures Verifies(Rewrite(s, seqno, ack, csumDelta)) <==> csumDelta == 0 || csumDelta == ONES
  {
    var t := Rewrite(s, seqno, ack, csumDelta);
    RewriteSum(s, seqno, ack, csumDelta);
    Conclude(Words(t), csumDelta, Words(s));
  }

  /** `_ip_csum_delta`, from the first four words. */
  function AddressDelta(a: seq<U16>, b: seq<U16>): U16
    requires |a| >= 4 && |b| >= 4
  {
    Fold2((ONES - a[0]) + b[0] + (ONES - a[1]) + b[1] + (ONES - a[2]) + b[2] + (ONES - a[3]) + b[3])
  }

  function Four(a: seq<U16>): int
    requires |a| >= 4
  {
    a[0] as int + a[1] + a[2] + a[3]
  }

  lemma AddressDeltaMeans(a: seq<U16>, b: seq<U16>)
    requires |a| >= 4 && |b| >= 4
    ensures Same(AddressDelta(a, b), Four(b) - Four(a))
  {
    var d := (ONES - a[0]) + b[0] + (ONES - a[1]) + b[1] + (ONES - a[2]) + b[2] + (ONES - a[3]) + b[3];
    Fold2Means(d);
    SameBy(d, Four(b) - Four(a), 4);
    SameSum(Fold2(d), d, d, Four(b) - Four(a));
    assert Same(Fold2(d) + d, d + (Four(b) - Four(a)));
  }

  /** The six words `initialize` looks at. */
  function Six(a: seq<U16>): int
    requires |a| >= 6
  {
    a[0] as int + a[1] + a[2] + a[3] + a[4] + a[5]
  }

  /** What the delta of `initialize` stands for: the difference of the six words, modulo 65535. */
  lemma InitialDeltaMeans(a: seq<U16>, b: seq<U16>)
    requires |a| >= 6 && |b| >= 6
    ensures Same(InitialDelta(a, b), Six(b) - Six(a))
  {
    var d := (ONES - a[0]) + b[0] + (ONES - a[1]) + b[1] + (ONES - a[2]) + b[2] + (ONES - a[3]) + b[3];
    var e := d % 0x1_0000 + d / 0x1_0000;
    var tail := (ONES - a[4]) + b[4] + (ONES - a[5]) + b[5];
    CarryKeeps(d);
    Fold2Means(e + tail);
    SameBy(d + tail, Six(b) - Six(a), 6);
    CarryThrough(Fold2(e + tail), e, d, tail, Six(b) - Six(a));
  }

  lemma CarryThrough(f: int, e: int, d: int, tail: int, diff: int)
    requires Same(f, e + tail) && Same(e, d) && Same(d + tail, diff)
    ensures Same(f, diff)
  {
    SameSum(f, e + tail, e, d);
    SameSum(f + e, (e + tail) + d, d + tail, diff);
    assert (f + e) + (d + tail) - (((e + tail) + d) + diff) == f - diff;
  }

  /** `make_pair` is only ever given equal flows, so its mappings keep checksums valid. */
  lemma SameFlowDelta(a: seq<U16>)
    requires |a| >= 6
    ensures InitialDelta(a, a) == ONES
  {
    InitialDeltaMeans(a, a);
  }
}

/** The mapping object: `Mapping6` for packets of the IPv4 side. */
module TCPAddressTranslator {
  import opened Common
  import opened SequenceShift
  import opened TCPChecksum

  /** `ntohl` and `htonl` of the host. */
  datatype ByteOrder = ByteOrder(toHost: U32 -> U32, toNet: U32 -> U32)

  class Header {
    var seqno: U32
    var ack: U32
    var sum: U16
    const rst: bool
    const fin: bool
    const syn: bool

    constructor (seqno: U32, ack: U32, sum: U16, rst: bool, fin: bool, syn: bool)
      ensures this.seqno == seqno && this.ack == ack && this.sum == sum
    {
      this.seqno, this.ack, this.sum := seqno, ack, sum;
      this.rst, this.fin, this.syn := rst, fin, syn;
    }
  }

  /** An IPv6 flow identifier as words: source address, destination address, source port, destination port. */
  type FlowWords = w: seq<U16> | |w| == 18 witness seq(18, _ => 0)

  function ReverseFlow(w: FlowWords): FlowWords {
    w[8..16] + w[..8] + [w[17], w[16]]
  }

  /** The flow of the replies: the addresses and the ports change places, and reversing again gives the flow back. */
  lemma ReverseFlowSwaps(w: FlowWords)
    ensures var r := ReverseFlow(w);
            && r[..8] == w[8..16] && r[8..16] == w[..8] && r[16] == w[17] && r[17] == w[16]
            && ReverseFlow(r) == w
  {
    var r := ReverseFlow(w);
    assert r[..8] == w[8..16] && r[8..16] == w[..8];
    assert w == w[..8] + w[8..16] + [w[16], w[17]];
  }

  class Mapping {
    var trigger: U32
    var delta: U32
    var oldDelta: U32
    var ipCsumDelta: U16
    var csumDelta: U16
    var mapto: FlowWords
    var reverse: Mapping?
    var isReverse: bool
    var output: nat
    var proto: nat
    var flowOver: bool
    var used: nat

    constructor ()
      ensures Fields() == FRESH && reverse == null && !isReverse && !flowOver
    {
      trigger, delta, oldDelta, proto := 0, 0, 0, 0;
      reverse, isReverse, flowOver := null, false, false;
    }

    function Fields(): Shift
      reads this
    {
      Shift(trigger, delta, oldDelta)
    }

    /** A mapping that tracks some accepted edits goes on to track them with this one, unless the edit confuses it. */
    method UpdateSeqnoDelta(at: U32, d: int) returns (ok: bool)
      modifies this`trigger, this`delta, this`oldDelta, this`used
      ensures (Fields(), ok) == Update(old(Fields()), at, d) && used == if ok then 0 else old(used)
      ensures forall acc, pos :: Tracks(old(Fields()), acc) && at == Wire(pos) && InWindow(acc, pos) ==>
                (Tracks(Fields(), Accept(acc, Edit(pos, d))) <==> !Confuses(old(Fields()), acc, Edit(pos, d)))
    {
      GoesOnTracking(Fields(), at, d);
      if SeqLeq(at, trigger) && (trigger != 0 || delta != 0 || oldDelta != 0) {
        return false;
      }
      oldDelta := delta;
      trigger := at;
      delta := Wire(delta + d);
      used := 0;
      return true;
    }

    /** For a mapping that tracks some accepted edits: the sum of their length changes at or before the position of s. */
    method DeltaFor(s: U32) returns (d: U32)
      ensures d == SequenceShift.DeltaFor(Fields(), s)
      ensures forall acc, pos :: Tracks(Fields(), acc) && s == Wire(pos) && Known(acc, pos) ==>
                d == Wire(ShiftAt(acc, pos))
    {
      KnowsDelta(Fields(), s);
      if SeqGeq(s, trigger) {
        return delta;
      }
      return oldDelta;
    }

    method Initialize(proto: nat, a: FlowWords, b: FlowWords, output: nat, isReverse: bool, reverse: Mapping)
      modifies this`ipCsumDelta, this`csumDelta, this`mapto, this`reverse, this`isReverse, this`output, this`proto
      ensures this.proto == proto && mapto == b && this.output == output
      ensures this.reverse == reverse && this.isReverse == isReverse
      ensures Same(ipCsumDelta, Four(b) - Four(a)) && Same(csumDelta, Six(b) - Six(a))
      ensures ipCsumDelta == AddressDelta(a, b) && csumDelta == InitialDelta(a, b)
    {
      this.proto, mapto, this.output := proto, b, output;
      this.reverse, this.isReverse := reverse, isReverse;
      ipCsumDelta, csumDelta := FlowDeltas(a, b);
      AddressDeltaMeans(a, b);
      InitialDeltaMeans(a, b);
    }

    /**
      Sequence and acknowledgement numbers move by this mapping's and the reverse mapping's delta; whatever the other
      words of the segment are, a checksum that verified before verifies afterwards exactly when the mapping's own
      delta stands for no change, as it does in every mapping MakePair sets up.
     */
    method Apply(h: Header, order: ByteOrder)
      requires reverse != null
      modifies h, this`flowOver, reverse`flowOver
      ensures h.seqno == order.toNet(Wire(order.toHost(old(h.seqno)) +
                                          SequenceShift.DeltaFor(Fields(), order.toHost(old(h.seqno)))))
      ensures h.ack == order.toNet(Wire(order.toHost(old(h.ack)) -
                                        SequenceShift.DeltaFor(reverse.Fields(), order.toHost(old(h.ack)))))
      ensures forall others :: Verifies(Segment(others, old(h.seqno), old(h.ack), old(h.sum))) ==>
                (Verifies(Segment(others, h.seqno, h.ack, h.sum)) <==> csumDelta == 0 || csumDelta == ONES)
      ensures flowOver == if h.rst || h.fin then true else if h.syn then false else old(flowOver)
      ensures reverse != this ==> reverse.flowOver == (h.rst || old(reverse.flowOver))
    {
      var newSeqno := Move(h.seqno, 1, order);
      var newAck := reverse.Move(h.ack, -1, order);
      Readdress(h, newSeqno, newAck);
      TrackSession(h);
    }

    /** Puts the new numbers into the header and corrects its checksum. */
    method Readdress(h: Header, seqno: U32, ack: U32)
      modifies h
      ensures h.seqno == seqno && h.ack == ack
      ensures forall others :: Verifies(Segment(others, old(h.seqno), old(h.ack), old(h.sum))) ==>
                (Verifies(Segment(others, h.seqno, h.ack, h.sum)) <==> csumDelta == 0 || csumDelta == ONES)
    {
      StillVerifies(h.seqno, h.ack, h.sum, seqno, ack, csumDelta);
      h.sum := Adjusted(h.sum, csumDelta + Change(h.seqno, seqno) + Change(h.ack, ack));
      h.seqno, h.ack := seqno, ack;
    }

    method TrackSession(h: Header)
      requires reverse != null
      modifies this`flowOver, reverse`flowOver
      ensures flowOver == if h.rst || h.fin then true else if h.syn then false else old(flowOver)
      ensures reverse != this ==> reverse.flowOver == (h.rst || old(reverse.flowOver))
    {
      if h.rst {
        flowOver := true;
        reverse.flowOver := true;
      } else if h.fin {
        flowOver := true;
      } else if h.syn {
        flowOver := false;
      }
    }

    method Move(raw: U32, sign: int, order: ByteOrder) returns (moved: U32)
      ensures moved == order.toNet(Wire(order.toHost(raw) + sign * SequenceShift.DeltaFor(Fields(), order.toHost(raw))))
    {
      var was: int := order.toHost(raw);
      var d := DeltaFor(was);
      moved := order.toNet(Wire(was + sign * d));
    }
  }

  method Adjusted(sum: U16, delta: nat) returns (r: U16)
    ensures r == Adjust(sum, delta)
  {
    var folded := Folded((ONES - sum) + delta);
    r := ONES - folded;
  }

  lemma StillVerifies(seqno: U32, ack: U32, sum: U16, seqno': U32, ack': U32, csumDelta: U16)
    ensures var sum' := Adjust(sum, csumDelta + Change(seqno, seqno') + Change(ack, ack'));
            forall others :: Verifies(Segment(others, seqno, ack, sum)) ==>
              (Verifies(Segment(others, seqno', ack', sum')) <==> csumDelta == 0 || csumDelta == ONES)
  {
    forall others | Verifies(Segment(others, seqno, ack, sum))
      ensures Verifies(Rewrite(Segment(others, seqno, ack, sum), seqno', ack', csumDelta)) <==>
              csumDelta == 0 || csumDelta == ONES
    {
      ChecksumExactly(Segment(others, seqno, ack, sum), seqno', ack', csumDelta);
    }
  }

  lemma GoesOnTracking(m: Shift, at: U32, d: int)
    ensures forall acc, pos :: Tracks(m, acc) && at == Wire(pos) && InWindow(acc, pos) ==>
              (Tracks(Update(m, at, d).0, Accept(acc, Edit(pos, d))) <==> !Confuses(m, acc, Edit(pos, d)))
  {
    forall acc, pos | Tracks(m, acc) && at == Wire(pos) && InWindow(acc, pos)
      ensures Tracks(Update(m, at, d).0, Accept(acc, Edit(pos, d))) <==> !Confuses(m, acc, Edit(pos, d))
    {
      UpdateTracks(m, acc, Edit(pos, d));
    }
  }

  lemma KnowsDelta(m: Shift, s: U32)
    ensures forall acc, pos :: Tracks(m, acc) && s == Wire(pos) && Known(acc, pos) ==>
              SequenceShift.DeltaFor(m, s) == Wire(ShiftAt(acc, pos))
  {
    forall acc, pos | Tracks(m, acc) && s == Wire(pos) && Known(acc, pos)
      ensures SequenceShift.DeltaFor(m, s) == Wire(ShiftAt(acc, pos))
    {
      DeltaTracks(m, acc, pos);
    }
  }

  /** The two loops of `initialize` and the folds behind them. */
  method FlowDeltas(a: FlowWords, b: FlowWords) returns (ip: U16, r: U16)
    ensures ip == AddressDelta(a, b) && r == InitialDelta(a, b)
  {
    var d := AddWords(a, b, 0, 4, 0);
    AddedFour(a, b);
    ip := Folded(d);
    var e := d % 0x1_0000 + d / 0x1_0000;
    d := AddWords(a, b, 4, 6, e);
    AddedTwo(a, b);
    r := Folded(d);
  }

  method Folded(x: nat) returns (r: U16)
    ensures r == Fold2(x)
  {
    var y := x % 0x1_0000 + x / 0x1_0000;
    r := (y + y / 0x1_0000) % 0x1_0000;
  }

  lemma AddedFour(a: FlowWords, b: FlowWords)
    ensures Added(a, b, 0, 4) ==
            (ONES - a[0]) + b[0] + (ONES - a[1]) + b[1] + (ONES - a[2]) + b[2] + (ONES - a[3]) + b[3]
  {
    assert Added(a, b, 2, 4) == (ONES - a[2]) + b[2] + Added(a, b, 3, 4);
    assert Added(a, b, 1, 4) == (ONES - a[1]) + b[1] + Added(a, b, 2, 4);
  }

  lemma AddedTwo(a: FlowWords, b: FlowWords)
    ensures Added(a, b, 4, 6) == (ONES - a[4]) + b[4] + (ONES - a[5]) + b[5]
  {
    assert Added(a, b, 5, 6) == (ONES - a[5]) + b[5] + Added(a, b, 6, 6);
  }

  method AddWords(a: FlowWords, b: FlowWords, start: nat, end: nat, d0: nat) returns (d: nat)
    requires start <= end <= 18
    ensures d == d0 + Added(a, b, start, end)
  {
    d := d0;
    var i := start;
    while i < end
      invariant start <= i <= end
      invariant d + Added(a, b, i, end) == d0 + Added(a, b, start, end)
    {
      d := d + (ONES - a[i]) + b[i];
      i := i + 1;
    }
  }

  function Added(a: FlowWords, b: FlowWords, i: nat, end: nat): nat
    requires i <= end <= 18
    decreases end - i
  {
    if i == end then 0 else (ONES - a[i]) + b[i] + Added(a, b, i + 1, end)
  }

  /**
    The mappings of a pair point at each other, and each one's delta is the difference between the flow it rewrites from
    and the flow it rewrites to.  For equal flows, the only ones the program ever passes, checksums stay valid.
   */
  method MakePair(proto: nat, inf: FlowWords, outf: FlowWords, inward: Mapping, outward: Mapping)
    requires inward != outward
    modifies inward, outward
    ensures inward.reverse == outward && outward.reverse == inward && !inward.isReverse && outward.isReverse
    ensures inward.mapto == outf && outward.mapto == ReverseFlow(inf)
    ensures inward.output == 0 && outward.output == 1 && inward.proto == proto && outward.proto == proto
    ensures inward.csumDelta == InitialDelta(inf, outf)
    ensures outward.csumDelta == InitialDelta(ReverseFlow(outf), ReverseFlow(inf))
    ensures inf == outf ==> inward.csumDelta == ONES && outward.csumDelta == ONES
    ensures inward.Fields() == old(inward.Fields()) && outward.Fields() == old(outward.Fields())
  {
    inward.Initialize(proto, inf, outf, 0, false, outward);
    outward.Initialize(proto, ReverseFlow(outf), ReverseFlow(inf), 1, true, inward);
    SameFlowDelta(inf);
    SameFlowDelta(ReverseFlow(inf));
  }
}
