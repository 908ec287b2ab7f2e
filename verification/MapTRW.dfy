/**
  The set-associative IP table of MapTRW: security/map_trw.cc (`find_ip`, the count updates of `push`, and the table
  geometry checked by `configure`).
 */
module IPTable {
  import opened Common

  type Count = x: int | -128 <= x < 128

  /** count == -128 marks an entry that was never used; its tag and timestamp are whatever memory held. */
  datatype Record = Record(tag: nat, count: Count, timestamp: Byte)

  const INVALID: Count := -128

  /** The limits `configure` accepts. */
  datatype Config = Config(maxCount: int, minCount: int, blockCount: int, incrAge: int, decrAge: int)

  predicate Accepted(c: Config) {
    && 0 < c.maxCount <= 120 && -120 <= c.minCount < 0
    && 0 < c.blockCount <= c.maxCount
    && 0 < c.incrAge <= 120 && 0 < c.decrAge <= 120
  }

  type Ways = seq<Record>

  // --- One set -----------------------------------------------------------------------

  /** The first slot with this tag, valid or not; |s| if there is none. */
  function FirstTag(s: Ways, tag: nat): (i: nat)
    ensures i <= |s|
    ensures i < |s| ==> s[i].tag == tag
    ensures forall j :: 0 <= j < i ==> s[j].tag != tag
  {
    if s == [] then 0 else if s[0].tag == tag then 0 else
    var i := FirstTag(s[1..], tag);
    assert forall j :: 0 < j < i + 1 ==> s[j] == s[1..][j - 1];
    i + 1
  }

  function FirstInvalid(s: Ways): (i: nat)
    ensures i <= |s|
    ensures i < |s| ==> s[i].count == INVALID
    ensures forall j :: 0 <= j < i ==> s[j].count != INVALID
  {
    if s == [] then 0 else if s[0].count == INVALID then 0 else
    var i := FirstInvalid(s[1..]);
    assert forall j :: 0 < j < i + 1 ==> s[j] == s[1..][j - 1];
    i + 1
  }

  /** The scan for the smallest count among the first n ways, starting from 127 at way 0. */
  function Smallest(s: Ways, n: nat): (r: (int, nat))
    requires n <= |s|
    ensures r.0 <= 127 && (r.1 < n || r == (127, 0))
    ensures r.1 < n && r.0 < 127 ==> s[r.1].count == r.0
    ensures forall j :: 0 <= j < n ==> r.0 <= s[j].count
    ensures forall j :: 0 <= j < n && j < r.1 ==> r.0 < s[j].count
  {
    if n == 0 then (127, 0) else
    var (m, k) := Smallest(s, n - 1);
    if s[n - 1].count < m then (s[n - 1].count, n - 1) else (m, k)
  }

  function Magnitude(n: int): nat {
    if n < 0 then -n else n
  }

  /** A period has passed since the stamp; the difference is taken without wrap-around, as in the code. */
  predicate Stale(r: Record, now: Byte, c: Config) {
    || (r.count < 0 && now - r.timestamp > c.incrAge)
    || (r.count > 0 && now - r.timestamp > c.decrAge)
  }

  /** One ageing step toward zero.  Both directions advance the stamp by incr_age. */
  function Older(r: Record, c: Config): Record {
    if r.count < 0 then r.(timestamp := (r.timestamp + c.incrAge) % 256, count := r.count + 1)
    else if r.count > 0 then r.(timestamp := (r.timestamp + c.incrAge) % 256, count := r.count - 1)
    else r
  }

  /** Lazy ageing: one step per elapsed period. */
  function Age(r: Record, now: Byte, c: Config): (t: Record)
    decreases Magnitude(r.count)
  {
    if Stale(r, now, c) then Age(Older(r, c), now, c) else r
  }

  /** A never-used entry that happens to hold the tag is taken into use. */
  function Wake(r: Record, now: Byte): Record {
    if r.count == INVALID then r.(count := 0, timestamp := now) else r
  }

  /** `find_ip` on one set: the new set and the way returned. */
  function Find(s: Ways, tag: nat, now: Byte, c: Config): (r: (Ways, nat))
    requires s != []
    ensures r.1 < |r.0| == |s|
  {
    var i, j, k := FirstTag(s, tag), FirstInvalid(s), Smallest(s, |s|).1;
    if i < |s| then (s[i := Age(Wake(s[i], now), now, c)], i)
    else if j < |s| then (s[j := Record(tag, 0, now)], j)
    else (s[k := Record(tag, 0, now)], k)
  }

  predicate Valid(r: Record) {
    r.count != INVALID
  }

  predicate InRange(r: Record, c: Config) {
    Valid(r) ==> c.minCount <= r.count <= c.maxCount
  }

  /** Every valid record sits at the first slot that has its tag, and every count keeps the configured limits. */
  predicate SetOk(s: Ways, c: Config) {
    && (forall i :: 0 <= i < |s| && Valid(s[i]) ==> FirstTag(s, s[i].tag) == i)
    && (forall i :: 0 <= i < |s| ==> InRange(s[i], c))
  }

  lemma DistinctTags(s: Ways, c: Config, i: nat)
    requires SetOk(s, c) && i < |s| && Valid(s[i])
    ensures forall j :: 0 <= j < |s| && j != i && Valid(s[j]) ==> s[j].tag != s[i].tag
  {
    assert FirstTag(s, s[i].tag) == i;
    forall j | 0 <= j < |s| && j != i && Valid(s[j])
      ensures s[j].tag != s[i].tag
    {
      assert FirstTag(s, s[j].tag) == j;
    }
  }

  /** A record k ageing steps on: the count k closer to zero, and one advance of incr_age modulo 256 per step. */
  function Steps(r: Record, k: nat, c: Config): Record
    requires k <= Magnitude(r.count)
  {
    Record(r.tag, if r.count < 0 then r.count + k else r.count - k, (r.timestamp + k * c.incrAge) % 256)
  }

  /** The stamp is within the period of its sign, as plain differences of stamps. */
  predicate WithinPeriod(r: Record, now: Byte, c: Config) {
    && (r.count > 0 ==> now - r.timestamp <= c.decrAge)
    && (r.count < 0 ==> now - r.timestamp <= c.incrAge)
  }

  /** t is the first of the records r, one step on, two steps on, ... that is within its period. */
  ghost predicate AgedBy(r: Record, t: Record, k: nat, now: Byte, c: Config) {
    && k <= Magnitude(r.count) && t == Steps(r, k, c) && WithinPeriod(t, now, c)
    && forall j: nat :: j < k ==> !WithinPeriod(Steps(r, j, c), now, c)
  }

  ghost predicate AgedInto(r: Record, t: Record, now: Byte, c: Config) {
    && (exists k: nat :: AgedBy(r, t, k, now, c))
    && (WithinPeriod(r, now, c) ==> t == r)
  }

  /** One step and k more are k + 1 steps. */
  lemma OneMoreStep(r: Record, k: nat, c: Config)
    requires r.count != 0 && k < Magnitude(r.count)
    ensures Steps(Older(r, c), k, c) == Steps(r, k + 1, c)
  {
    assert (k + 1) * c.incrAge == c.incrAge + k * c.incrAge;
    ModSum(r.timestamp + c.incrAge, k * c.incrAge);
  }

  lemma ModSum(a: int, b: int)
    ensures (a % 256 + b) % 256 == (a + b) % 256
  {
  }

  /**
    Lazy ageing takes exactly the steps needed to bring the stamp within the period, stopping at count zero: a record
    within its period is unchanged, and a stamp ahead of the clock, left by an earlier turn of it, does not age.
   */
  lemma {:induction false} AgeExactly(r: Record, now: Byte, c: Config) returns (k: nat)
    ensures AgedBy(r, Age(r, now, c), k, now, c) && (WithinPeriod(r, now, c) ==> Age(r, now, c) == r)
    decreases Magnitude(r.count)
  {
    k := 0;
    assert Steps(r, 0, c) == r;
    if !WithinPeriod(r, now, c) {
      var h := AgeExactly(Older(r, c), now, c);
      k := h + 1;
      OneMoreStep(r, h, c);
      forall j: nat | 0 < j < k
        ensures !WithinPeriod(Steps(r, j, c), now, c)
      {
        OneMoreStep(r, j - 1, c);
      }
    }
  }

  lemma AgeTowardZero(r: Record, now: Byte, c: Config)
    ensures var t := Age(r, now, c);
            && t.tag == r.tag
            && (r.count >= 0 ==> 0 <= t.count <= r.count)
            && (r.count <= 0 ==> r.count <= t.count <= 0)
  {
    var k := AgeExactly(r, now, c);
  }

  lemma FirstTagUnique(s: Ways, tag: nat, i: nat)
    requires i < |s| && s[i].tag == tag && forall j :: 0 <= j < i ==> s[j].tag != tag
    ensures FirstTag(s, tag) == i
  {
  }

  /** Giving way i a tag no slot has keeps every valid record at its first slot. */
  lemma ReplaceKeepsSetOk(s: Ways, c: Config, i: nat, r: Record)
    requires SetOk(s, c) && i < |s| && Valid(r) && InRange(r, c) && FirstTag(s, r.tag) == |s|
    ensures SetOk(s[i := r], c)
  {
    var t := s[i := r];
    forall j | 0 <= j < |t| && Valid(t[j])
      ensures FirstTag(t, t[j].tag) == j
    {
      if j != i {
        assert FirstTag(s, s[j].tag) == j;
      }
      FirstTagUnique(t, t[j].tag, j);
    }
  }

  /** Changing only the count and stamp of a record keeps the set well-formed. */
  lemma RecountKeepsSetOk(s: Ways, c: Config, i: nat, r: Record)
    requires SetOk(s, c) && i < |s| && r.tag == s[i].tag && InRange(r, c) && Valid(r)
    requires FirstTag(s, s[i].tag) == i
    ensures SetOk(s[i := r], c)
  {
    var t := s[i := r];
    forall j | 0 <= j < |t| && Valid(t[j])
      ensures FirstTag(t, t[j].tag) == j
    {
      if j != i {
        assert FirstTag(s, s[j].tag) == j;
      }
      FirstTagUnique(t, t[j].tag, j);
    }
  }

  /** What `find_ip` did to a set: the way is now the tag's, well-formed and within limits, and no other way changed. */
  predicate Served(s: Ways, t: Ways, i: nat, tag: nat, c: Config)
    requires i < |s| == |t|
  {
    && SetOk(t, c) && Valid(t[i]) && t[i].tag == tag && FirstTag(t, tag) == i
    && forall j :: 0 <= j < |s| && j != i ==> t[j] == s[j]
  }

  lemma HitServes(s: Ways, tag: nat, now: Byte, c: Config, i: nat)
    requires Accepted(c) && SetOk(s, c) && i < |s| && FirstTag(s, tag) == i
    ensures Served(s, s[i := Age(Wake(s[i], now), now, c)], i, tag, c)
  {
    var r := Age(Wake(s[i], now), now, c);
    AgeTowardZero(Wake(s[i], now), now, c);
    assert InRange(s[i], c);
    RecountKeepsSetOk(s, c, i, r);
    FirstTagUnique(s[i := r], tag, i);
  }

  lemma MissServes(s: Ways, tag: nat, now: Byte, c: Config, i: nat)
    requires Accepted(c) && SetOk(s, c) && i < |s| && FirstTag(s, tag) == |s|
    ensures Served(s, s[i := Record(tag, 0, now)], i, tag, c)
  {
    var r := Record(tag, 0, now);
    ReplaceKeepsSetOk(s, c, i, r);
    FirstTagUnique(s[i := r], tag, i);
  }

  /** The way that has to go is one of the fewest failures. */
  lemma SmallestIsLeast(s: Ways, c: Config)
    requires Accepted(c) && SetOk(s, c) && s != [] && FirstInvalid(s) == |s|
    ensures var k := Smallest(s, |s|).1; k < |s| && forall j :: 0 <= j < |s| ==> Valid(s[j]) && s[k].count <= s[j].count
  {
    assert InRange(s[0], c);
  }

  /**
    `find_ip` on one set: it keeps the set well-formed, returns a valid record with the wanted tag, changes no other way,
    and drops a valid record only when every way was valid, taking one of minimum count.  A record the tag had is aged
    into its period; any other starts at count 0 with the current stamp.
   */
  lemma FindKeepsSetOk(s: Ways, tag: nat, now: Byte, c: Config)
    requires Accepted(c) && SetOk(s, c) && s != []
    ensures var (t, i) := Find(s, tag, now, c);
            && SetOk(t, c) && Valid(t[i]) && t[i].tag == tag && FirstTag(t, tag) == i
            && (forall j :: 0 <= j < |s| && j != i ==> t[j] == s[j])
            && (Valid(s[i]) && s[i].tag != tag ==> forall j :: 0 <= j < |s| ==> Valid(s[j]) && s[i].count <= s[j].count)
            && (if Valid(s[i]) && s[i].tag == tag then AgedInto(s[i], t[i], now, c) else t[i] == Record(tag, 0, now))
  {
    var i := Find(s, tag, now, c).1;
    if FirstTag(s, tag) < |s| {
      HitServes(s, tag, now, c, i);
      var k := AgeExactly(s[i], now, c);
      assert Valid(s[i]) ==> AgedInto(s[i], Age(s[i], now, c), now, c);
    } else {
      MissServes(s, tag, now, c, i);
      if FirstInvalid(s) == |s| {
        SmallestIsLeast(s, c);
      }
    }
  }
}

/** The whole table, indexed by the cipher word of an address. */
module MapTRW {
  import opened Common
  import opened IPTable
  import opened RC5

  type Table = seq<Ways>

  predicate IsTable(t: Table) {
    |t| == BASE && forall k :: 0 <= k < |t| ==> t[k] != []
  }

  predicate TableOk(t: Table, c: Config) {
    IsTable(t) && forall k :: 0 <= k < |t| ==> SetOk(t[k], c)
  }

  /** Set index and tag of a cipher word, for 2^16 sets. */
  function Index(w: Word32): Word {
    w % BASE
  }

  function Tag(w: Word32): Word {
    w / BASE
  }

  function FindIn(t: Table, w: Word32, now: Byte, c: Config): (Table, nat)
    requires IsTable(t)
  {
    var (s, i) := Find(t[Index(w)], Tag(w), now, c);
    (t[Index(w) := s], i)
  }

  lemma FindInKeepsOk(t: Table, w: Word32, now: Byte, c: Config)
    requires Accepted(c) && TableOk(t, c)
    ensures var (u, i) := FindIn(t, w, now, c);
            TableOk(u, c) && i < |u[Index(w)]| && Valid(u[Index(w)][i]) && u[Index(w)][i].tag == Tag(w)
  {
    FindKeepsSetOk(t[Index(w)], Tag(w), now, c);
  }

  // --- Records belong to addresses -------------------------------------------------------

  /** The record the table holds under a cipher word, if any. */
  function RecordAt(t: Table, w: Word32): Option<Record>
    requires IsTable(t)
  {
    var s := t[Index(w)];
    var i := FirstTag(s, Tag(w));
    if i < |s| && Valid(s[i]) then Some(s[i]) else None
  }

  /** The record the table holds for an address, if any. */
  function RecordOf(t: Table, key: Key, ip: Word32): Option<Record>
    requires IsTable(t)
  {
    RecordAt(t, Encrypt(ip, key))
  }

  /** Two addresses never share both set and tag: 16 index bits and 16 tag bits recover the whole cipher word. */
  lemma NoAlias(key: Key, x: Word32, y: Word32)
    requires Index(Encrypt(x, key)) == Index(Encrypt(y, key)) && Tag(Encrypt(x, key)) == Tag(Encrypt(y, key))
    ensures x == y
  {
    CipherInverse(x, key);
    CipherInverse(y, key);
  }

  /**
    Looking up one address gives it a record and leaves every other address's record alone, except that a record of
    minimum count in a set full of valid records may be dropped.
   */
  lemma LookupIsolates(t: Table, key: Key, x: Word32, y: Word32, now: Byte, c: Config)
    requires Accepted(c) && TableOk(t, c) && x != y
    ensures var u := FindIn(t, Encrypt(x, key), now, c).0;
            && TableOk(u, c) && RecordOf(u, key, x).Some?
            && (|| RecordOf(u, key, y) == RecordOf(t, key, y)
                || (&& RecordOf(u, key, y) == None && RecordOf(t, key, y).Some?
                    && forall j :: 0 <= j < |t[Index(Encrypt(y, key))]| ==>
                         && Valid(t[Index(Encrypt(y, key))][j])
                         && RecordOf(t, key, y).value.count <= t[Index(Encrypt(y, key))][j].count))
  {
    var wx, wy := Encrypt(x, key), Encrypt(y, key);
    FindInKeepsOk(t, wx, now, c);
    var s := t[Index(wx)];
    FindKeepsSetOk(s, Tag(wx), now, c);
    if Index(wx) == Index(wy) {
      if Tag(wx) == Tag(wy) {
        NoAlias(key, x, y);
      }
      OtherTag(s, Tag(wx), Tag(wy), now, c);
    }
  }

  /** Inside one set, for a tag that was not looked up. */
  lemma OtherTag(s: Ways, tag: nat, other: nat, now: Byte, c: Config)
    requires Accepted(c) && SetOk(s, c) && s != [] && tag != other
    ensures var (t, i) := Find(s, tag, now, c);
            var a, b := FirstTag(s, other), FirstTag(t, other);
            || (a < |s| && Valid(s[a]) && b == a && t[a] == s[a])
            || ((a == |s| || !Valid(s[a])) && (b == |t| || !Valid(t[b])))
            || (a == i && Valid(s[a]) && (b == |t| || !Valid(t[b])))
  {
    FindKeepsSetOk(s, tag, now, c);
    var (t, i) := Find(s, tag, now, c);
    OtherWay(s, t, i, tag, other, c);
  }

  lemma OtherWay(s: Ways, t: Ways, i: nat, tag: nat, other: nat, c: Config)
    requires SetOk(s, c) && i < |s| == |t| && Served(s, t, i, tag, c) && tag != other
    ensures var a, b := FirstTag(s, other), FirstTag(t, other);
            || (a < |s| && Valid(s[a]) && b == a && t[a] == s[a])
            || ((a == |s| || !Valid(s[a])) && (b == |t| || !Valid(t[b])))
            || (a == i && Valid(s[a]) && (b == |t| || !Valid(t[b])))
  {
    var a, b := FirstTag(s, other), FirstTag(t, other);
    if a < |s| && a != i {
      FirstTagUnique(t, other, a);
    }
  }

  // --- The count updates of `push` ----------------------------------------------------------

  /** The bits `push` reads from the two connection records, and its two packet tests. */
  datatype Conn = Conn(srcSeen: bool, srcTried: bool, dstSeen: bool, dstAcked: bool, dstTried: bool,
                       validAck: bool, blockPolicy: bool)

  datatype Slot = Slot(row: nat, way: nat)

  predicate InTable(t: Table, p: Slot) {
    p.row < |t| && p.way < |t[p.row]|
  }

  function At(t: Table, p: Slot): Record
    requires InTable(t, p)
  {
    t[p.row][p.way]
  }

  function Put(t: Table, p: Slot, r: Record): Table
    requires InTable(t, p)
  {
    t[p.row := t[p.row][p.way := r]]
  }

  function Credit(r: Record, now: Byte, c: Config): Record
    requires Accepted(c) && c.minCount <= r.count <= c.maxCount
  {
    r.(count := if r.count - 2 < c.minCount then c.minCount else r.count - 2, timestamp := now)
  }

  function Charge(r: Record, now: Byte, c: Config): Record
    requires Accepted(c) && c.minCount <= r.count <= c.maxCount
  {
    r.(count := if r.count + 1 > c.maxCount then c.maxCount else r.count + 1, timestamp := now)
  }

  /** Which record `push` changes, and whether the packet is dropped. */
  function Judge(t: Table, src: Slot, dst: Slot, n: Conn, now: Byte, c: Config): (Table, bool)
    requires Accepted(c) && InTable(t, src) && InTable(t, dst)
    requires c.minCount <= At(t, src).count <= c.maxCount && c.minCount <= At(t, dst).count <= c.maxCount
  {
    var blocked := At(t, src).count >= c.blockCount;
    if n.srcSeen then (t, blocked && n.blockPolicy)
    else if n.dstSeen then
      (if n.validAck && !n.dstAcked then Put(t, dst, Credit(At(t, dst), now, c)) else t, false)
    else if n.dstTried then (t, false)
    else if blocked then (if !n.srcTried then Put(t, src, Charge(At(t, src), now, c)) else t, true)
    else (Put(t, src, Charge(At(t, src), now, c)), false)
  }

  /** One IP packet; `find_ip` for the destination may take over the way just found for the source (SourceKeptExactly). */
  function Push(t: Table, src: Word32, dst: Word32, n: Conn, now: Byte, c: Config): (Table, bool)
    requires Accepted(c) && TableOk(t, c)
  {
    FindInKeepsOk(t, src, now, c);
    var (u, i) := FindIn(t, src, now, c);
    FindInKeepsOk(u, dst, now, c);
    var (v, j) := FindIn(u, dst, now, c);
    SourceStaysValid(u, dst, now, c, Slot(Index(src), i));
    Judge(v, Slot(Index(src), i), Slot(Index(dst), j), n, now, c)
  }

  lemma WithinLimits(t: Table, c: Config, p: Slot)
    requires TableOk(t, c) && InTable(t, p) && Valid(At(t, p))
    ensures c.minCount <= At(t, p).count <= c.maxCount
  {
    assert SetOk(t[p.row], c) && InRange(t[p.row][p.way], c);
  }

  lemma WayStaysValid(s: Ways, tag: nat, now: Byte, c: Config, i: nat)
    requires Accepted(c) && SetOk(s, c) && i < |s| && Valid(s[i])
    ensures Valid(Find(s, tag, now, c).0[i])
  {
    FindKeepsSetOk(s, tag, now, c);
  }

  lemma StaysValid(t: Table, w: Word32, now: Byte, c: Config, p: Slot)
    requires Accepted(c) && TableOk(t, c) && InTable(t, p) && Valid(At(t, p))
    ensures var u := FindIn(t, w, now, c).0; TableOk(u, c) && InTable(u, p) && Valid(At(u, p))
  {
    FindInKeepsOk(t, w, now, c);
    if p.row == Index(w) {
      WayStaysValid(t[p.row], Tag(w), now, c, p.way);
    }
  }

  lemma SourceStaysValid(t: Table, w: Word32, now: Byte, c: Config, p: Slot)
    requires Accepted(c) && TableOk(t, c) && InTable(t, p) && Valid(At(t, p))
    ensures var u := FindIn(t, w, now, c).0;
            && TableOk(u, c) && InTable(u, p) && Valid(At(u, p))
            && c.minCount <= At(u, p).count <= c.maxCount
    ensures var (u, j) := FindIn(t, w, now, c);
            var q := Slot(Index(w), j);
            InTable(u, q) && Valid(At(u, q)) && c.minCount <= At(u, q).count <= c.maxCount
  {
    StaysValid(t, w, now, c, p);
    FindInKeepsOk(t, w, now, c);
    var (u, j) := FindIn(t, w, now, c);
    WithinLimits(u, c, p);
    WithinLimits(u, c, Slot(Index(w), j));
  }

  lemma PutKeepsOk(t: Table, c: Config, p: Slot, r: Record)
    requires TableOk(t, c) && InTable(t, p) && Valid(At(t, p)) && Valid(r) && InRange(r, c) && r.tag == At(t, p).tag
    ensures TableOk(Put(t, p, r), c)
  {
    RecountKeepsSetOk(t[p.row], c, p.way, r);
  }

  /** Every packet keeps every count within the configured limits, hence away from the -128 marker, and tags distinct. */
  lemma PushKeepsOk(t: Table, src: Word32, dst: Word32, n: Conn, now: Byte, c: Config)
    requires Accepted(c) && TableOk(t, c)
    ensures TableOk(Push(t, src, dst, n, now, c).0, c)
  {
    FindInKeepsOk(t, src, now, c);
    var (u, i) := FindIn(t, src, now, c);
    SourceStaysValid(u, dst, now, c, Slot(Index(src), i));
    var (v, j) := FindIn(u, dst, now, c);
    JudgeKeepsOk(v, Slot(Index(src), i), Slot(Index(dst), j), n, now, c);
  }

  lemma JudgeKeepsOk(t: Table, src: Slot, dst: Slot, n: Conn, now: Byte, c: Config)
    requires Accepted(c) && TableOk(t, c) && InTable(t, src) && InTable(t, dst)
    requires Valid(At(t, src)) && Valid(At(t, dst))
    requires c.minCount <= At(t, src).count <= c.maxCount && c.minCount <= At(t, dst).count <= c.maxCount
    ensures TableOk(Judge(t, src, dst, n, now, c).0, c)
  {
    PutKeepsOk(t, c, dst, Credit(At(t, dst), now, c));
    PutKeepsOk(t, c, src, Charge(At(t, src), now, c));
  }

  datatype Packet = Packet(src: Word32, dst: Word32, conn: Conn, now: Byte)

  /** The table `configure` makes: every count is -128, tags and stamps are arbitrary. */
  predicate IsBlank(t: Table) {
    IsTable(t) && forall k, i :: 0 <= k < |t| && 0 <= i < |t[k]| ==> !Valid(t[k][i])
  }

  lemma BlankIsOk(t: Table, c: Config)
    requires IsBlank(t)
    ensures TableOk(t, c)
  {
  }

  function Run(t: Table, key: Key, ps: seq<Packet>, c: Config): (u: Table)
    requires Accepted(c) && IsBlank(t)
    ensures TableOk(u, c)
  {
    BlankIsOk(t, c);
    if ps == [] then t else
    var p := ps[|ps| - 1];
    var u := Run(t, key, ps[..|ps| - 1], c);
    PushKeepsOk(u, Encrypt(p.src, key), Encrypt(p.dst, key), p.conn, p.now, c);
    Push(u, Encrypt(p.src, key), Encrypt(p.dst, key), p.conn, p.now, c).0
  }

  /** In every table reachable by IP traffic every valid record is within the limits, and no other of its set has its tag. */
  lemma ReachableRecords(t: Table, key: Key, ps: seq<Packet>, c: Config, k: nat, i: nat)
    requires Accepted(c) && IsBlank(t) && k < BASE
    requires var s := Run(t, key, ps, c)[k]; i < |s| && Valid(s[i])
    ensures var s := Run(t, key, ps, c)[k];
            && c.minCount <= s[i].count <= c.maxCount
            && forall j :: 0 <= j < |s| && j != i && Valid(s[j]) ==> s[j].tag != s[i].tag
  {
    var s := Run(t, key, ps, c)[k];
    assert SetOk(s, c) && InRange(s[i], c);
    DistinctTags(s, c, i);
  }

  // --- What a packet does to the records of addresses --------------------------------------

  /** The destination's lookup takes over way i, found for the source: same set, no such tag, no unused way, i smallest. */
  predicate TakesOver(t: Table, i: nat, src: Word32, dst: Word32)
    requires IsTable(t)
  {
    var s := t[Index(src)];
    && Index(src) == Index(dst)
    && FirstTag(s, Tag(dst)) == |s|
    && FirstInvalid(s) == |s|
    && Smallest(s, |s|).1 == i
  }

  /** The source's way before and after the destination's lookup. */
  lemma SourceWay(s: Ways, i: nat, mine: nat, other: nat, now: Byte, c: Config)
    requires i < |s| && Valid(s[i]) && s[i].tag == mine != other
    ensures Find(s, other, now, c).0[i].tag == mine <==>
            !(FirstTag(s, other) == |s| && FirstInvalid(s) == |s| && Smallest(s, |s|).1 == i)
  {
  }

  /** Exactly when the record `push` holds for the source is still the source's after the second lookup. */
  lemma SourceKeptExactly(t: Table, src: Word32, dst: Word32, now: Byte, c: Config)
    requires Accepted(c) && TableOk(t, c) && src != dst
    ensures var (u, i) := FindIn(t, src, now, c);
            && TableOk(u, c) && InTable(FindIn(u, dst, now, c).0, Slot(Index(src), i))
            && (At(FindIn(u, dst, now, c).0, Slot(Index(src), i)).tag == Tag(src) <==> !TakesOver(u, i, src, dst))
  {
    FindInKeepsOk(t, src, now, c);
    var (u, i) := FindIn(t, src, now, c);
    SourceStaysValid(u, dst, now, c, Slot(Index(src), i));
    if Index(src) == Index(dst) {
      SourceWay(u[Index(src)], i, Tag(src), Tag(dst), now, c);
    }
  }

  /** With one way per set, which `configure` accepts, every other address of the set takes over. */
  lemma OneWaySets(t: Table, src: Word32, dst: Word32, now: Byte, c: Config)
    requires Accepted(c) && TableOk(t, c) && src != dst && |t[Index(src)]| == 1
    ensures var (u, i) := FindIn(t, src, now, c);
            TableOk(u, c) && (TakesOver(u, i, src, dst) <==> Index(src) == Index(dst))
  {
    FindInKeepsOk(t, src, now, c);
    var (u, i) := FindIn(t, src, now, c);
    var s := u[Index(src)];
    assert s == [s[0]] && s[0].count < 127 by {
      assert SetOk(s, c) && InRange(s[0], c);
    }
  }

  /** Then a failed attempt of the source is charged to the destination, whose fresh record starts at 1. */
  lemma ChargedToDestination(t: Table, src: Word32, dst: Word32, n: Conn, now: Byte, c: Config)
    requires Accepted(c) && TableOk(t, c) && src != dst && !n.srcSeen && !n.dstSeen && !n.dstTried
    requires var (u, i) := FindIn(t, src, now, c); IsTable(u) && TakesOver(u, i, src, dst)
    ensures var (v, p) := (Push(t, src, dst, n, now, c).0, Slot(Index(src), FindIn(t, src, now, c).1));
            InTable(v, p) && At(v, p) == Record(Tag(dst), 1, now)
  {
    FindInKeepsOk(t, src, now, c);
    var (u, i) := FindIn(t, src, now, c);
    SourceStaysValid(u, dst, now, c, Slot(Index(src), i));
  }

  lemma SameTags(s: Ways, i: nat, r: Record, tag: nat)
    requires i < |s| && r.tag == s[i].tag
    ensures FirstTag(s[i := r], tag) == FirstTag(s, tag)
  {
    var (k, t) := (FirstTag(s, tag), s[i := r]);
    if k < |s| {
      FirstTagUnique(t, tag, k);
    }
  }

  /** Rewriting a record that is not z's, under the same tag, leaves z's alone. */
  lemma PutIsolates(t: Table, key: Key, p: Slot, r: Record, z: Word32)
    requires IsTable(t) && InTable(t, p) && r.tag == At(t, p).tag
    requires p.row != Index(Encrypt(z, key)) || r.tag != Tag(Encrypt(z, key))
    ensures IsTable(Put(t, p, r)) && RecordOf(Put(t, p, r), key, z) == RecordOf(t, key, z)
  {
    SameTags(t[p.row], p.way, r, Tag(Encrypt(z, key)));
  }

  lemma JudgeIsolates(t: Table, key: Key, p: Slot, q: Slot, n: Conn, now: Byte, c: Config, z: Word32)
    requires Accepted(c) && IsTable(t) && InTable(t, p) && InTable(t, q)
    requires c.minCount <= At(t, p).count <= c.maxCount && c.minCount <= At(t, q).count <= c.maxCount
    requires p.row != Index(Encrypt(z, key)) || At(t, p).tag != Tag(Encrypt(z, key))
    requires q.row != Index(Encrypt(z, key)) || At(t, q).tag != Tag(Encrypt(z, key))
    ensures var u := Judge(t, p, q, n, now, c).0; IsTable(u) && RecordOf(u, key, z) == RecordOf(t, key, z)
  {
    PutIsolates(t, key, q, Credit(At(t, q), now, c), z);
    PutIsolates(t, key, p, Charge(At(t, p), now, c), z);
  }

  /** A slot that holds the record of x or of y is not that of a third address. */
  lemma NotThird(key: Key, w: Word32, z: Word32, x: Word32)
    requires w == Encrypt(x, key) && x != z
    ensures Index(w) != Index(Encrypt(z, key)) || Tag(w) != Tag(Encrypt(z, key))
  {
    if Index(w) == Index(Encrypt(z, key)) && Tag(w) == Tag(Encrypt(z, key)) {
      NoAlias(key, x, z);
    }
  }

  /** After both lookups the two slots hold records of the source or the destination. */
  lemma SlotsOfTwo(t: Table, src: Word32, dst: Word32, now: Byte, c: Config)
    requires Accepted(c) && TableOk(t, c)
    ensures var (u, i) := FindIn(t, src, now, c);
            && TableOk(u, c)
            && var (v, j) := FindIn(u, dst, now, c);
               && TableOk(v, c) && InTable(v, Slot(Index(src), i)) && InTable(v, Slot(Index(dst), j))
               && At(v, Slot(Index(dst), j)).tag == Tag(dst)
               && (|| At(v, Slot(Index(src), i)).tag == Tag(src)
                   || (Index(src) == Index(dst) && At(v, Slot(Index(src), i)).tag == Tag(dst)))
  {
    FindInKeepsOk(t, src, now, c);
    var (u, i) := FindIn(t, src, now, c);
    FindInKeepsOk(u, dst, now, c);
    SourceStaysValid(u, dst, now, c, Slot(Index(src), i));
    SourceTag(u, dst, now, c, Slot(Index(src), i));
  }

  lemma SourceTag(t: Table, w: Word32, now: Byte, c: Config, p: Slot)
    requires Accepted(c) && TableOk(t, c) && InTable(t, p)
    ensures var u := FindIn(t, w, now, c).0;
            InTable(u, p) && (At(u, p).tag == At(t, p).tag || (p.row == Index(w) && At(u, p).tag == Tag(w)))
  {
    FindKeepsSetOk(t[Index(w)], Tag(w), now, c);
  }

  /** One packet changes no record but those of its two addresses, and drops others only by eviction. */
  lemma PushIsolates(t: Table, key: Key, x: Word32, y: Word32, z: Word32, n: Conn, now: Byte, c: Config)
    requires Accepted(c) && TableOk(t, c) && z != x && z != y
    ensures var v := Push(t, Encrypt(x, key), Encrypt(y, key), n, now, c).0;
            IsTable(v) && (RecordOf(v, key, z) == RecordOf(t, key, z) || RecordOf(v, key, z) == None)
  {
    var wx, wy := Encrypt(x, key), Encrypt(y, key);
    FindInKeepsOk(t, wx, now, c);
    var (u, i) := FindIn(t, wx, now, c);
    LookupDrops(t, key, x, z, now, c);
    LookupDrops(u, key, y, z, now, c);
    UpdateIsolates(t, key, x, y, z, n, now, c);
  }

  lemma LookupDrops(t: Table, key: Key, x: Word32, z: Word32, now: Byte, c: Config)
    requires Accepted(c) && TableOk(t, c) && x != z
    ensures var u := FindIn(t, Encrypt(x, key), now, c).0;
            TableOk(u, c) && (RecordOf(u, key, z) == RecordOf(t, key, z) || RecordOf(u, key, z) == None)
  {
    LookupIsolates(t, key, x, z, now, c);
  }

  /** The count update behind the two lookups. */
  lemma UpdateIsolates(t: Table, key: Key, x: Word32, y: Word32, z: Word32, n: Conn, now: Byte, c: Config)
    requires Accepted(c) && TableOk(t, c) && z != x && z != y
    ensures var (wx, wy) := (Encrypt(x, key), Encrypt(y, key));
            var u := FindIn(t, wx, now, c).0;
            && TableOk(u, c)
            && var (v, v') := (FindIn(u, wy, now, c).0, Push(t, wx, wy, n, now, c).0);
               IsTable(v) && IsTable(v') && RecordOf(v', key, z) == RecordOf(v, key, z)
  {
    var wx, wy := Encrypt(x, key), Encrypt(y, key);
    SlotsOfTwo(t, wx, wy, now, c);
    FindInKeepsOk(t, wx, now, c);
    var (u, i) := FindIn(t, wx, now, c);
    var (v, j) := FindIn(u, wy, now, c);
    SourceStaysValid(u, wy, now, c, Slot(Index(wx), i));
    NotThird(key, wx, z, x);
    NotThird(key, wy, z, y);
    JudgeIsolates(v, key, Slot(Index(wx), i), Slot(Index(wy), j), n, now, c, z);
  }

  // --- What a packet does to its own two records, and the verdict ----------------------------

  /** A new connection attempt, for all `push` can tell. */
  predicate Attempt(n: Conn) {
    !n.srcSeen && !n.dstSeen && !n.dstTried
  }

  /** The acknowledgement of a connection that its destination began and that was not counted before. */
  predicate Answers(n: Conn) {
    !n.srcSeen && n.dstSeen && n.validAck && !n.dstAcked
  }

  /** A lookup gives its word a record: the old one aged into its period, or a new one with count 0 and the current stamp. */
  lemma LookupGives(t: Table, w: Word32, now: Byte, c: Config)
    requires Accepted(c) && TableOk(t, c)
    ensures var (u, i) := FindIn(t, w, now, c);
            && TableOk(u, c) && InTable(u, Slot(Index(w), i))
            && RecordAt(u, w) == Some(At(u, Slot(Index(w), i)))
            && FirstTag(u[Index(w)], Tag(w)) == i
            && match RecordAt(t, w)
               case Some(r) => AgedInto(r, At(u, Slot(Index(w), i)), now, c)
               case None => At(u, Slot(Index(w), i)) == Record(Tag(w), 0, now)
  {
    FindInKeepsOk(t, w, now, c);
    FindKeepsSetOk(t[Index(w)], Tag(w), now, c);
    LookupWay(t[Index(w)], Tag(w), now, c);
  }

  /** The way a lookup returns holds a valid record of the tag exactly when the first slot of the tag does. */
  lemma LookupWay(s: Ways, tag: nat, now: Byte, c: Config)
    requires Accepted(c) && SetOk(s, c) && s != []
    ensures var (i, k) := (Find(s, tag, now, c).1, FirstTag(s, tag));
            if k < |s| then i == k else s[i].tag != tag
  {
  }

  /** A second lookup of the same word changes nothing: an aged record is within its period. */
  lemma LookupAgain(t: Table, w: Word32, now: Byte, c: Config)
    requires Accepted(c) && TableOk(t, c)
    requires match RecordAt(t, w) case Some(r) => WithinPeriod(r, now, c) case None => false
    ensures FindIn(t, w, now, c) == (t, FirstTag(t[Index(w)], Tag(w)))
  {
    var i := FirstTag(t[Index(w)], Tag(w));
    FindMatch(t, w, now, c, i);
    var k := AgeExactly(t[Index(w)][i], now, c);
  }

  lemma SameWord(v: Word32, w: Word32)
    requires Index(v) == Index(w) && Tag(v) == Tag(w)
    ensures v == w
  {
  }

  /** The source's way after the destination's lookup: unchanged, or taken over. */
  lemma WayAfter(s: Ways, i: nat, mine: nat, other: nat, now: Byte, c: Config)
    requires i < |s| && Valid(s[i]) && s[i].tag == mine != other
    ensures Find(s, other, now, c).0[i] ==
            if FirstTag(s, other) == |s| && FirstInvalid(s) == |s| && Smallest(s, |s|).1 == i
            then Record(other, 0, now)
            else s[i]
  {
  }

  /** The two slots `push` works on, after both lookups. */
  lemma BothLookups(t: Table, src: Word32, dst: Word32, now: Byte, c: Config)
    requires Accepted(c) && TableOk(t, c)
    ensures var (u, i) := FindIn(t, src, now, c);
            var p := Slot(Index(src), i);
            && TableOk(u, c) && InTable(u, p) && RecordAt(u, src) == Some(At(u, p))
            && var (v, j) := FindIn(u, dst, now, c);
               var q := Slot(Index(dst), j);
               && TableOk(v, c) && InTable(v, p) && InTable(v, q)
               && RecordAt(v, dst) == Some(At(v, q)) && FirstTag(v[q.row], Tag(dst)) == j
               && At(v, p) == if TakesOver(u, i, src, dst) then Record(Tag(dst), 0, now) else At(u, p)
  {
    LookupGives(t, src, now, c);
    var (u, i) := FindIn(t, src, now, c);
    LookupGives(u, dst, now, c);
    SourceStaysValid(u, dst, now, c, Slot(Index(src), i));
    if src == dst {
      LookupAgain(u, dst, now, c);
    } else if Index(src) == Index(dst) {
      if Tag(src) == Tag(dst) {
        SameWord(src, dst);
      }
      WayAfter(u[Index(src)], i, Tag(src), Tag(dst), now, c);
    }
  }

  /**
    The packet is dropped exactly when the record still is the source's, its count (after ageing) has reached the block
    count, and the packet is an attempt or, on a connection its source has, of a kind that is blocked.
   */
  lemma DropExactly(t: Table, src: Word32, dst: Word32, n: Conn, now: Byte, c: Config)
    requires Accepted(c) && TableOk(t, c)
    ensures var (u, i) := FindIn(t, src, now, c);
            && IsTable(u) && RecordAt(u, src).Some?
            && (Push(t, src, dst, n, now, c).1 <==>
                && !TakesOver(u, i, src, dst) && RecordAt(u, src).value.count >= c.blockCount
                && if n.srcSeen then n.blockPolicy else !n.dstSeen && !n.dstTried)
  {
    BothLookups(t, src, dst, now, c);
  }

  /**
    A failure raises the count of its host by one, up to the maximum; an acknowledgement lowers it by two, down to the
    minimum; both restart the period.  A repeated attempt of a blocked host is not counted again.
   */
  function Updated(r: Record, n: Conn, isSource: bool, isDestination: bool, now: Byte, c: Config): Record
    requires Accepted(c) && c.minCount <= r.count <= c.maxCount
  {
    if isSource && Attempt(n) && (r.count < c.blockCount || !n.srcTried) then
      Record(r.tag, if r.count == c.maxCount then r.count else r.count + 1, now)
    else if isDestination && Answers(n) then
      Record(r.tag, if r.count <= c.minCount + 2 then c.minCount else r.count - 2, now)
    else r
  }

  /** Rewriting the record at the first slot of a tag, seen from a word of that tag and from another word. */
  lemma PutAt(t: Table, w: Word32, p: Slot, r: Record, z: Word32)
    requires IsTable(t) && InTable(t, p) && p.row == Index(w) && FirstTag(t[p.row], Tag(w)) == p.way
    requires r.tag == Tag(w) && Valid(r)
    ensures IsTable(Put(t, p, r)) && RecordAt(Put(t, p, r), z) == if z == w then Some(r) else RecordAt(t, z)
  {
    SameTags(t[p.row], p.way, r, Tag(z));
    if p.row == Index(z) && Tag(z) == Tag(w) {
      SameWord(z, w);
    }
  }

  /** What is left of the source's record in a set after the destination's lookup. */
  lemma SourceLeft(t: Table, src: Word32, dst: Word32, now: Byte, c: Config)
    requires Accepted(c) && TableOk(t, c)
    ensures var (u, i) := FindIn(t, src, now, c);
            && TableOk(u, c)
            && RecordAt(FindIn(u, dst, now, c).0, src) == if TakesOver(u, i, src, dst) then None else RecordAt(u, src)
  {
    BothLookups(t, src, dst, now, c);
    var (u, i) := FindIn(t, src, now, c);
    var (v, p) := (FindIn(u, dst, now, c).0, Slot(Index(src), i));
    LookupGives(t, src, now, c);
    if src == dst {
      LookupAgain(u, dst, now, c);
    } else if Index(src) == Index(dst) {
      if Tag(src) == Tag(dst) {
        SameWord(src, dst);
      }
      OtherTag(u[p.row], Tag(dst), Tag(src), now, c);
    }
  }

  /** The count update, for slots that hold the records of the two words. */
  lemma JudgeUpdates(t: Table, src: Word32, dst: Word32, p: Slot, q: Slot, n: Conn, now: Byte, c: Config)
    requires Accepted(c) && TableOk(t, c) && InTable(t, p) && InTable(t, q)
    requires p.row == Index(src) && FirstTag(t[p.row], Tag(src)) == p.way && Valid(At(t, p))
    requires q.row == Index(dst) && FirstTag(t[q.row], Tag(dst)) == q.way && Valid(At(t, q))
    requires c.minCount <= At(t, p).count <= c.maxCount && c.minCount <= At(t, q).count <= c.maxCount
    ensures var u := Judge(t, p, q, n, now, c).0;
            && IsTable(u)
            && RecordAt(u, src) == Some(Updated(At(t, p), n, true, src == dst, now, c))
            && RecordAt(u, dst) == Some(Updated(At(t, q), n, src == dst, true, now, c))
  {
    PutAt(t, dst, q, Credit(At(t, q), now, c), src);
    PutAt(t, dst, q, Credit(At(t, q), now, c), dst);
    PutAt(t, src, p, Charge(At(t, p), now, c), src);
    PutAt(t, src, p, Charge(At(t, p), now, c), dst);
  }

  /** The same after a takeover: both slots are the destination's, whose record is new. */
  lemma JudgeTakenOver(t: Table, src: Word32, dst: Word32, p: Slot, n: Conn, now: Byte, c: Config)
    requires Accepted(c) && TableOk(t, c) && InTable(t, p) && src != dst && RecordAt(t, src) == None
    requires p.row == Index(dst) && FirstTag(t[p.row], Tag(dst)) == p.way && At(t, p) == Record(Tag(dst), 0, now)
    ensures var u := Judge(t, p, p, n, now, c).0;
            && IsTable(u)
            && RecordAt(u, src) == None
            && RecordAt(u, dst) == Some(Updated(At(t, p), n, true, true, now, c))
  {
    PutAt(t, dst, p, Credit(At(t, p), now, c), src);
    PutAt(t, dst, p, Credit(At(t, p), now, c), dst);
    PutAt(t, dst, p, Charge(At(t, p), now, c), src);
    PutAt(t, dst, p, Charge(At(t, p), now, c), dst);
  }

  /**
    The records of both hosts after a packet, from those the lookups gave: each is updated for its own role, unless the
    destination took over the source's way; then the source has none and the destination's new record is charged.
   */
  lemma PushExactly(t: Table, src: Word32, dst: Word32, n: Conn, now: Byte, c: Config)
    requires Accepted(c) && TableOk(t, c)
    ensures var (u, i) := FindIn(t, src, now, c);
            && TableOk(u, c)
            && var (v, w) := (FindIn(u, dst, now, c).0, Push(t, src, dst, n, now, c).0);
               && TableOk(v, c) && IsTable(w)
               && match (RecordAt(u, src), RecordAt(v, dst))
                  case (Some(r), Some(d)) =>
                    && c.minCount <= r.count <= c.maxCount && c.minCount <= d.count <= c.maxCount
                    && var lost := TakesOver(u, i, src, dst);
                       && RecordAt(w, src) == (if lost then None else Some(Updated(r, n, true, src == dst, now, c)))
                       && RecordAt(w, dst) == Some(Updated(d, n, lost || src == dst, true, now, c))
                  case _ => false
  {
    BothLookups(t, src, dst, now, c);
    SourceLeft(t, src, dst, now, c);
    LookupGives(t, src, now, c);
    var (u, i) := FindIn(t, src, now, c);
    var (v, j) := FindIn(u, dst, now, c);
    var p, q := Slot(Index(src), i), Slot(Index(dst), j);
    WithinLimits(u, c, p);
    SourceStaysValid(u, dst, now, c, p);
    if TakesOver(u, i, src, dst) {
      JudgeTakenOver(v, src, dst, p, n, now, c);
    } else {
      JudgeUpdates(v, src, dst, p, q, n, now, c);
    }
  }

  // --- The count of a host as a random walk ----------------------------------------------------

  /** One packet of the walk: up by one for a failure of the host, down by two for an acknowledgement of it. */
  function WalkStep(m: int, n: Conn, isSource: bool, isDestination: bool, c: Config): int {
    if isSource && Attempt(n) then
      if m == c.maxCount || (m >= c.blockCount && n.srcTried) then m else m + 1
    else if isDestination && Answers(n) then
      if m - 2 < c.minCount then c.minCount else m - 2
    else m
  }

  /** The verdict on a packet of a host whose walk has reached m. */
  predicate Blocks(m: int, n: Conn, c: Config) {
    m >= c.blockCount && if n.srcSeen then n.blockPolicy else Attempt(n)
  }

  function Walk(ps: seq<Packet>, x: Word32, c: Config): int {
    if ps == [] then 0 else
    var p := ps[|ps| - 1];
    WalkStep(Walk(ps[..|ps| - 1], x, c), p.conn, p.src == x, p.dst == x, c)
  }

  /** The packet's other addresses fall into other sets than x. */
  predicate LeavesAlone(p: Packet, x: Word32, key: Key) {
    && (p.src == x || Index(Encrypt(p.src, key)) != Index(Encrypt(x, key)))
    && (p.dst == x || Index(Encrypt(p.dst, key)) != Index(Encrypt(x, key)))
  }

  /** Host x is alone in its set. */
  predicate Alone(ps: seq<Packet>, x: Word32, key: Key) {
    forall k :: 0 <= k < |ps| ==> LeavesAlone(ps[k], x, key)
  }

  /** No stamp of the run is older than either period at a later packet. */
  predicate Fast(ps: seq<Packet>, c: Config) {
    forall a, b :: 0 <= a < b < |ps| ==> ps[b].now - ps[a].now <= c.incrAge && ps[b].now - ps[a].now <= c.decrAge
  }

  /** The record is that of the walk, stamped by a packet of the run; a host without one has not moved. */
  ghost predicate Tracks(o: Option<Record>, m: int, ps: seq<Packet>) {
    match o
    case None => m == 0
    case Some(r) => r.count == m && exists a :: 0 <= a < |ps| && r.timestamp == ps[a].now
  }

  /** A lookup in another set leaves a record alone. */
  lemma LookupElsewhere(t: Table, w: Word32, now: Byte, c: Config, x: Word32)
    requires Accepted(c) && TableOk(t, c) && Index(w) != Index(x)
    ensures var u := FindIn(t, w, now, c).0; TableOk(u, c) && RecordAt(u, x) == RecordAt(t, x)
  {
    FindInKeepsOk(t, w, now, c);
  }

  /** The count update in other sets leaves a record alone. */
  lemma JudgeElsewhere(t: Table, p: Slot, q: Slot, n: Conn, now: Byte, c: Config, x: Word32)
    requires Accepted(c) && IsTable(t) && InTable(t, p) && InTable(t, q) && p.row != Index(x) && q.row != Index(x)
    requires c.minCount <= At(t, p).count <= c.maxCount && c.minCount <= At(t, q).count <= c.maxCount
    ensures var w := Judge(t, p, q, n, now, c).0; IsTable(w) && RecordAt(w, x) == RecordAt(t, x)
  {
  }

  lemma ElsewhereKept(t: Table, src: Word32, dst: Word32, n: Conn, now: Byte, c: Config, x: Word32)
    requires Accepted(c) && TableOk(t, c) && Index(src) != Index(x) && Index(dst) != Index(x)
    ensures var w := Push(t, src, dst, n, now, c).0; IsTable(w) && RecordAt(w, x) == RecordAt(t, x)
  {
    LookupElsewhere(t, src, now, c, x);
    FindInKeepsOk(t, src, now, c);
    var (u, i) := FindIn(t, src, now, c);
    LookupElsewhere(u, dst, now, c, x);
    SourceStaysValid(u, dst, now, c, Slot(Index(src), i));
    var (v, j) := FindIn(u, dst, now, c);
    JudgeElsewhere(v, Slot(Index(src), i), Slot(Index(dst), j), n, now, c, x);
  }

  /** The record of a host alone in its set, and within its period, after a packet of its own or to it. */
  lemma AloneStep(t: Table, src: Word32, dst: Word32, n: Conn, now: Byte, c: Config, x: Word32, r: Record)
    requires Accepted(c) && TableOk(t, c) && (src == x || dst == x)
    requires (src == x || Index(src) != Index(x)) && (dst == x || Index(dst) != Index(x))
    requires match RecordAt(t, x) case None => r == Record(Tag(x), 0, now) case Some(q) => r == q && WithinPeriod(q, now, c)
    ensures var (w, drop) := Push(t, src, dst, n, now, c);
            && IsTable(w) && c.minCount <= r.count <= c.maxCount
            && RecordAt(w, x) == Some(Updated(r, n, src == x, dst == x, now, c))
            && (src == x ==> (drop <==> Blocks(r.count, n, c)))
  {
    PushExactly(t, src, dst, n, now, c);
    DropExactly(t, src, dst, n, now, c);
    LookupGives(t, src, now, c);
    var u := FindIn(t, src, now, c).0;
    LookupGives(u, dst, now, c);
    if src == x {
      if dst == x {
        LookupAgain(u, dst, now, c);
      }
    } else {
      LookupElsewhere(t, src, now, c, x);
    }
  }

  predicate Dropped(t: Table, key: Key, ps: seq<Packet>, k: nat, c: Config)
    requires Accepted(c) && IsBlank(t) && k < |ps|
  {
    Push(Run(t, key, ps[..k], c), Encrypt(ps[k].src, key), Encrypt(ps[k].dst, key), ps[k].conn, ps[k].now, c).1
  }

  lemma UpdatedWalks(r: Record, n: Conn, isSource: bool, isDestination: bool, now: Byte, c: Config)
    requires Accepted(c) && c.minCount <= r.count <= c.maxCount
    ensures var u := Updated(r, n, isSource, isDestination, now, c);
            u.count == WalkStep(r.count, n, isSource, isDestination, c) && (u.timestamp == r.timestamp || u.timestamp == now)
  {
  }

  lemma StampInPeriod(ps: seq<Packet>, p: Packet, r: Record, m: int, c: Config)
    requires Fast(ps + [p], c) && Tracks(Some(r), m, ps)
    ensures WithinPeriod(r, p.now, c)
  {
    var a :| 0 <= a < |ps| && r.timestamp == ps[a].now;
    assert (ps + [p])[a] == ps[a] && (ps + [p])[|ps|] == p;
  }

  lemma StampKept(ps: seq<Packet>, p: Packet, o: Option<Record>, m: int)
    requires Tracks(o, m, ps)
    ensures Tracks(o, m, ps + [p])
  {
    if o.Some? {
      var a :| 0 <= a < |ps| && o.value.timestamp == ps[a].now;
      assert (ps + [p])[a] == ps[a];
    }
  }

  lemma StampNow(ps: seq<Packet>, p: Packet, r: Record)
    requires r.timestamp == p.now
    ensures Tracks(Some(r), r.count, ps + [p])
  {
    assert (ps + [p])[|ps|] == p;
  }

  lemma UpdatedTracks(ps: seq<Packet>, p: Packet, r: Record, isSource: bool, isDestination: bool, c: Config)
    requires Accepted(c) && c.minCount <= r.count <= c.maxCount
    requires r.timestamp == p.now || Tracks(Some(r), r.count, ps)
    ensures Tracks(Some(Updated(r, p.conn, isSource, isDestination, p.now, c)),
                   WalkStep(r.count, p.conn, isSource, isDestination, c), ps + [p])
  {
    var u := Updated(r, p.conn, isSource, isDestination, p.now, c);
    UpdatedWalks(r, p.conn, isSource, isDestination, p.now, c);
    if u.timestamp == p.now {
      StampNow(ps, p, u);
    } else {
      var a :| 0 <= a < |ps| && r.timestamp == ps[a].now;
      StampKept(ps, p, Some(u), u.count);
    }
  }

  /** One packet keeps the walk and the record together, and the verdict on it is decided by the walk so far. */
  lemma TracksStep(t: Table, src: Word32, dst: Word32, ps: seq<Packet>, p: Packet, m: int, x: Word32, c: Config)
    requires Accepted(c) && TableOk(t, c) && Fast(ps + [p], c) && Tracks(RecordAt(t, x), m, ps)
    requires (src == x || Index(src) != Index(x)) && (dst == x || Index(dst) != Index(x))
    ensures var (w, drop) := Push(t, src, dst, p.conn, p.now, c);
            && IsTable(w) && Tracks(RecordAt(w, x), WalkStep(m, p.conn, src == x, dst == x, c), ps + [p])
            && (src == x ==> (drop <==> Blocks(m, p.conn, c)))
  {
    if src == x || dst == x {
      var r := match RecordAt(t, x) case Some(q) => q case None => Record(Tag(x), 0, p.now);
      if RecordAt(t, x).Some? {
        StampInPeriod(ps, p, r, m, c);
      }
      AloneStep(t, src, dst, p.conn, p.now, c, x, r);
      UpdatedTracks(ps, p, r, src == x, dst == x, c);
    } else {
      ElsewhereKept(t, src, dst, p.conn, p.now, c, x);
      StampKept(ps, p, RecordAt(t, x), m);
    }
  }

  /** For a packet whose other address leaves x alone, words tell whether an address is x. */
  lemma TwoHosts(key: Key, p: Packet, x: Word32)
    requires LeavesAlone(p, x, key)
    ensures Encrypt(p.src, key) == Encrypt(x, key) <==> p.src == x
    ensures Encrypt(p.dst, key) == Encrypt(x, key) <==> p.dst == x
  {
  }

  /** One packet of a run. */
  lemma RunStep(t: Table, key: Key, ps: seq<Packet>, p: Packet, m: int, x: Word32, c: Config)
    requires Accepted(c) && TableOk(t, c) && LeavesAlone(p, x, key) && Fast(ps + [p], c)
    requires Tracks(RecordOf(t, key, x), m, ps)
    ensures var (w, drop) := Push(t, Encrypt(p.src, key), Encrypt(p.dst, key), p.conn, p.now, c);
            && IsTable(w) && Tracks(RecordOf(w, key, x), WalkStep(m, p.conn, p.src == x, p.dst == x, c), ps + [p])
            && (p.src == x ==> (drop <==> Blocks(m, p.conn, c)))
  {
    TwoHosts(key, p, x);
    TracksStep(t, Encrypt(p.src, key), Encrypt(p.dst, key), ps, p, m, Encrypt(x, key), c);
  }

  /** The count of a host alone in its set follows the walk in every run without ageing. */
  lemma {:induction false} WalkTracks(t: Table, key: Key, ps: seq<Packet>, x: Word32, c: Config)
    requires Accepted(c) && IsBlank(t) && Alone(ps, x, key) && Fast(ps, c)
    ensures Tracks(RecordOf(Run(t, key, ps, c), key, x), Walk(ps, x, c), ps)
  {
    if ps == [] {
      assert RecordOf(t, key, x) == None;
    } else {
      var (qs, p) := (ps[..|ps| - 1], ps[|ps| - 1]);
      assert ps == qs + [p];
      WalkTracks(t, key, qs, x, c);
      RunStep(Run(t, key, qs, c), key, qs, p, Walk(qs, x, c), x, c);
    }
  }

  lemma PrefixConditions(ps: seq<Packet>, k: nat, x: Word32, key: Key, c: Config)
    requires Alone(ps, x, key) && Fast(ps, c) && k < |ps|
    ensures Alone(ps[..k], x, key) && Fast(ps[..k], c) && LeavesAlone(ps[k], x, key) && Fast(ps[..k] + [ps[k]], c)
  {
    assert forall j :: 0 <= j <= k ==> (ps[..k] + [ps[k]])[j] == ps[j];
  }

  /** Its attempts, and what is blocked of its other packets, are dropped exactly while the walk is at the block count. */
  lemma VerdictFollowsWalk(t: Table, key: Key, ps: seq<Packet>, k: nat, x: Word32, c: Config)
    requires Accepted(c) && IsBlank(t) && Alone(ps, x, key) && Fast(ps, c) && k < |ps| && ps[k].src == x
    ensures Dropped(t, key, ps, k, c) <==> Blocks(Walk(ps[..k], x, c), ps[k].conn, c)
  {
    var qs := ps[..k];
    PrefixConditions(ps, k, x, key, c);
    WalkTracks(t, key, qs, x, c);
    RunStep(Run(t, key, qs, c), key, qs, ps[k], Walk(qs, x, c), x, c);
  }

  /** x sends attempts only and is never acknowledged. */
  predicate OnlyFails(ps: seq<Packet>, x: Word32) {
    forall k :: 0 <= k < |ps| ==> (ps[k].src == x ==> Attempt(ps[k].conn)) && (ps[k].dst == x ==> !Answers(ps[k].conn))
  }

  /** The packets sent by x. */
  function Sent(ps: seq<Packet>, x: Word32): nat {
    if ps == [] then 0 else Sent(ps[..|ps| - 1], x) + if ps[|ps| - 1].src == x then 1 else 0
  }

  /** The walk counts the attempts until it reaches the block count, and then stays at or above it. */
  lemma {:induction false} WalkCounts(ps: seq<Packet>, x: Word32, c: Config)
    requires Accepted(c) && OnlyFails(ps, x)
    ensures if Sent(ps, x) < c.blockCount then Walk(ps, x, c) == Sent(ps, x) else c.blockCount <= Walk(ps, x, c) <= c.maxCount
  {
    if ps != [] {
      WalkCounts(ps[..|ps| - 1], x, c);
    }
  }

  /** Of the unanswered attempts of a host alone in its set, without ageing, exactly the first blockCount pass. */
  lemma FirstAttemptsPass(t: Table, key: Key, ps: seq<Packet>, k: nat, x: Word32, c: Config)
    requires Accepted(c) && IsBlank(t) && Alone(ps, x, key) && Fast(ps, c) && OnlyFails(ps, x)
    requires k < |ps| && ps[k].src == x
    ensures Dropped(t, key, ps, k, c) <==> Sent(ps[..k], x) >= c.blockCount
  {
    VerdictFollowsWalk(t, key, ps, k, x, c);
    WalkCounts(ps[..k], x, c);
  }

  // --- The flat array ------------------------------------------------------------------------

  lemma RowBounds(k: nat, i: nat, assoc: nat)
    requires k < BASE && i < assoc
    ensures 0 <= k * assoc + i < BASE * assoc
  {
    MulGrows(BASE, k + 1, assoc);
    assert (k + 1) * assoc == k * assoc + assoc;
  }

  lemma RowsDisjoint(j: nat, h: nat, k: nat, i: nat, assoc: nat)
    requires j < k && h < assoc && i < assoc
    ensures j * assoc + h < k * assoc + i
  {
    MulGrows(k, j + 1, assoc);
    assert (j + 1) * assoc == j * assoc + assoc;
  }

  /** Way i of set k is element k * assoc + i of the array. */
  predicate CellOk(t: Table, s: seq<Record>, assoc: nat, k: nat, i: nat)
    requires k < BASE && i < assoc && |t| == BASE
  {
    |t[k]| == assoc && k * assoc + i < |s| && t[k][i] == s[k * assoc + i]
  }

  ghost predicate Mirrors(t: Table, s: seq<Record>, assoc: nat) {
    && |t| == BASE && |s| == BASE * assoc
    && (forall k :: 0 <= k < BASE ==> |t[k]| == assoc)
    && (forall k, i {:trigger CellOk(t, s, assoc, k, i)} :: 0 <= k < BASE && 0 <= i < assoc ==> CellOk(t, s, assoc, k, i))
  }

  lemma WriteCell(t: Table, s: seq<Record>, assoc: nat, k: nat, i: nat, r: Record)
    requires Mirrors(t, s, assoc) && k < BASE && i < assoc
    ensures k * assoc + i < |s| && Mirrors(Put(t, Slot(k, i), r), s[k * assoc + i := r], assoc)
  {
    RowBounds(k, i, assoc);
    var u, v := Put(t, Slot(k, i), r), s[k * assoc + i := r];
    forall j, h | 0 <= j < BASE && 0 <= h < assoc
      ensures CellOk(u, v, assoc, j, h)
    {
      assert CellOk(t, s, assoc, j, h);
      if j < k {
        RowsDisjoint(j, h, k, i, assoc);
      } else if k < j {
        RowsDisjoint(k, i, j, h, assoc);
      }
    }
  }

  lemma BlankMirror(s: seq<Record>, assoc: nat) returns (t: Table)
    requires assoc > 0 && |s| == BASE * assoc && forall n :: 0 <= n < |s| ==> !Valid(s[n])
    ensures Mirrors(t, s, assoc) && IsBlank(t)
  {
    t := seq(BASE, k requires 0 <= k < BASE => Row(s, assoc, k));
    forall k, i | 0 <= k < BASE && 0 <= i < assoc
      ensures CellOk(t, s, assoc, k, i)
    {
      RowBounds(k, i, assoc);
    }
    forall k, i | 0 <= k < |t| && 0 <= i < |t[k]|
      ensures !Valid(t[k][i])
    {
      assert CellOk(t, s, assoc, k, i);
    }
  }

  ghost function Row(s: seq<Record>, assoc: nat, k: nat): (w: Ways)
    requires k < BASE && |s| == BASE * assoc && assoc > 0
    ensures |w| == assoc && forall i :: 0 <= i < assoc ==> k * assoc + i < |s| && w[i] == s[k * assoc + i]
  {
    RowBounds(k, assoc - 1, assoc);
    s[k * assoc..k * assoc + assoc]
  }

  class Detector {
    const assoc: nat
    const key: Key
    const cfg: Config
    const table: array<Record>
    ghost var sets: Table

    /** `sets` shows the flat array as sets of ways. */
    ghost predicate Shaped()
      reads this, table
    {
      assoc > 0 && Accepted(cfg) && Mirrors(sets, table[..], assoc)
    }

    ghost predicate Ok()
      reads this, table
    {
      Shaped() && TableOk(sets, cfg)
    }

    /** The allocation of `configure`: counts are -128, the other fields are what memory holds. */
    constructor (assoc: nat, key: Key, cfg: Config, memory: nat -> Record)
      requires assoc > 0 && Accepted(cfg)
      ensures Ok() && IsBlank(sets) && this.key == key && this.cfg == cfg && fresh(table)
    {
      this.assoc, this.key, this.cfg := assoc, key, cfg;
      var a := new Record[BASE * assoc](i => memory(i).(count := INVALID));
      table := a;
      ghost var t := BlankMirror(a[..], assoc);
      sets := t;
      BlankIsOk(t, cfg);
    }

    method Read(k: nat, i: nat) returns (r: Record)
      requires Shaped() && k < BASE && i < assoc
      ensures |sets[k]| == assoc && r == sets[k][i]
    {
      assert CellOk(sets, table[..], assoc, k, i);
      RowBounds(k, i, assoc);
      r := table[k * assoc + i];
    }

    method Store(k: nat, i: nat, r: Record)
      requires Shaped() && k < BASE && i < assoc
      modifies this`sets, table
      ensures Shaped() && InTable(old(sets), Slot(k, i)) && sets == Put(old(sets), Slot(k, i), r)
    {
      WriteCell(sets, table[..], assoc, k, i, r);
      ghost var s := table[..];
      table[k * assoc + i] := r;
      assert table[..] == s[k * assoc + i := r];
      sets := Put(sets, Slot(k, i), r);
    }

    /** First loop of `find_ip`. */
    method ScanTag(k: nat, tag: Word) returns (i: nat)
      requires Shaped() && k < BASE
      ensures |sets[k]| == assoc && i == FirstTag(sets[k], tag)
    {
      i := 0;
      while i < assoc
        invariant 0 <= i <= assoc
        invariant forall j :: 0 <= j < i ==> sets[k][j].tag != tag
      {
        var r := Read(k, i);
        if r.tag == tag {
          return;
        }
        i := i + 1;
      }
    }

    /** Second loop of `find_ip`. */
    method ScanInvalid(k: nat) returns (i: nat)
      requires Shaped() && k < BASE
      ensures |sets[k]| == assoc && i == FirstInvalid(sets[k])
    {
      i := 0;
      while i < assoc
        invariant 0 <= i <= assoc
        invariant forall j :: 0 <= j < i ==> sets[k][j].count != INVALID
      {
        var r := Read(k, i);
        if r.count == INVALID {
          return;
        }
        i := i + 1;
      }
    }

    /** Third loop of `find_ip`. */
    method ScanSmallest(k: nat) returns (minIndex: nat)
      requires Shaped() && k < BASE
      ensures |sets[k]| == assoc && minIndex == Smallest(sets[k], assoc).1
    {
      var min: int := 127;
      minIndex := 0;
      for i := 0 to assoc
        invariant (min, minIndex) == Smallest(sets[k], i)
      {
        var r := Read(k, i);
        if r.count < min {
          min := r.count;
          minIndex := i;
        }
      }
    }

    ghost function Rank(k: nat, tag: Word): nat
      requires Shaped() && k < BASE
      reads this, table
    {
      var s := sets[k];
      var i := FirstTag(s, tag);
      if i < |s| && Valid(s[i]) then Magnitude(s[i].count) else 0
    }

    /** `find_ip`; one ageing step is applied per call and the rest by the recursive call, as in the code. */
    method FindIp(w: Word32, now: Byte) returns (i: nat)
      requires Ok()
      modifies this`sets, table
      ensures Ok() && (sets, i) == FindIn(old(sets), w, now, cfg)
      decreases Rank(Index(w), Tag(w))
    {
      i := ScanTag(Index(w), Tag(w));
      if i < assoc {
        var again := AgeWay(w, i, now);
        if again {
          i := FindIp(w, now);
        }
      } else {
        i := TakeWay(w, now);
      }
    }

    /** The matching way: take it into use, or apply one ageing step and ask for another round. */
    method AgeWay(w: Word32, i: nat, now: Byte) returns (again: bool)
      requires Ok() && i < assoc && FirstTag(sets[Index(w)], Tag(w)) == i
      modifies this`sets, table
      ensures Ok()
      ensures !again ==> (sets, i) == FindIn(old(sets), w, now, cfg)
      ensures again ==> FindIn(sets, w, now, cfg) == FindIn(old(sets), w, now, cfg)
      ensures again ==> Rank(Index(w), Tag(w)) < old(Rank(Index(w), Tag(w)))
    {
      var k := Index(w);
      var r := Read(k, i);
      FindMatch(sets, w, now, cfg, i);
      FindInKeepsOk(sets, w, now, cfg);
      if r.count == INVALID {
        Store(k, i, r.(count := 0, timestamp := now));
        return false;
      }
      if Stale(r, now, cfg) {
        AgedOnce(sets, cfg, Slot(k, i), w, now);
        Store(k, i, Older(r, cfg));
        return true;
      }
      return false;
    }

    /** No slot has the tag: take the first unused way, or else evict. */
    method TakeWay(w: Word32, now: Byte) returns (i: nat)
      requires Ok() && FirstTag(sets[Index(w)], Tag(w)) == |sets[Index(w)]|
      modifies this`sets, table
      ensures Ok() && (sets, i) == FindIn(old(sets), w, now, cfg)
    {
      var k, tag := Index(w), Tag(w);
      FindInKeepsOk(sets, w, now, cfg);
      i := ScanInvalid(k);
      if i < assoc {
        Store(k, i, Record(tag, 0, now));
        return;
      }
      i := ScanSmallest(k);
      Store(k, i, Record(tag, 0, now));
    }

    method PushPacket(src: Word32, dst: Word32, n: Conn, now: Byte) returns (drop: bool)
      requires Ok()
      modifies this`sets, table
      ensures Ok() && (sets, drop) == Push(old(sets), Encrypt(src, key), Encrypt(dst, key), n, now, cfg)
    {
      var srcHash := EncryptWord(src, key);
      var dstHash := EncryptWord(dst, key);
      PushKeepsOk(sets, srcHash, dstHash, n, now, cfg);
      FindInKeepsOk(sets, srcHash, now, cfg);
      var i := FindIp(srcHash, now);
      SourceStaysValid(sets, dstHash, now, cfg, Slot(Index(srcHash), i));
      var j := FindIp(dstHash, now);
      drop := Decide(Index(srcHash), i, Index(dstHash), j, n, now);
    }

    /** The decision tree of `push` and its count updates. */
    method Decide(a: nat, i: nat, b: nat, j: nat, n: Conn, now: Byte) returns (drop: bool)
      requires Shaped() && a < BASE && b < BASE && i < assoc && j < assoc
      requires InTable(sets, Slot(a, i)) && InTable(sets, Slot(b, j))
      requires cfg.minCount <= At(sets, Slot(a, i)).count <= cfg.maxCount
      requires cfg.minCount <= At(sets, Slot(b, j)).count <= cfg.maxCount
      modifies this`sets, table
      ensures Shaped() && (sets, drop) == Judge(old(sets), Slot(a, i), Slot(b, j), n, now, cfg)
    {
      drop := false;
      var src := Read(a, i);
      if n.srcSeen {
        if src.count >= cfg.blockCount && n.blockPolicy {
          drop := true;
        }
      } else if n.dstSeen {
        if n.validAck && !n.dstAcked {
          var dst := Read(b, j);
          var count := dst.count - 2;
          if count < cfg.minCount {
            count := cfg.minCount;
          }
          Store(b, j, dst.(count := count, timestamp := now));
        }
      } else if !n.dstTried {
        var count := src.count + 1;
        if count > cfg.maxCount {
          count := cfg.maxCount;
        }
        if src.count >= cfg.blockCount {
          drop := true;
          if !n.srcTried {
            Store(a, i, src.(count := count, timestamp := now));
          }
        } else {
          Store(a, i, src.(count := count, timestamp := now));
        }
      }
    }
  }

  /** A lookup that matches way i changes that way only; with nothing to age it changes nothing. */
  lemma FindMatch(t: Table, w: Word32, now: Byte, c: Config, i: nat)
    requires IsTable(t) && i < |t[Index(w)]| && FirstTag(t[Index(w)], Tag(w)) == i
    ensures var r := t[Index(w)][i];
            && FindIn(t, w, now, c) == (Put(t, Slot(Index(w), i), Age(Wake(r, now), now, c)), i)
            && (Age(Wake(r, now), now, c) == r ==> FindIn(t, w, now, c) == (t, i))
  {
    var r := t[Index(w)][i];
    assert t[Index(w)][i := r] == t[Index(w)];
    assert t[Index(w) := t[Index(w)]] == t;
  }

  /** One ageing step keeps the table well-formed and the matching way, and the rest of the lookup is unchanged. */
  lemma AgedOnce(t: Table, c: Config, p: Slot, w: Word32, now: Byte)
    requires Accepted(c) && TableOk(t, c) && InTable(t, p) && p.row == Index(w) && FirstTag(t[p.row], Tag(w)) == p.way
    requires Valid(At(t, p)) && Stale(At(t, p), now, c)
    ensures var u := Put(t, p, Older(At(t, p), c));
            && TableOk(u, c) && FirstTag(u[p.row], Tag(w)) == p.way && Valid(At(u, p))
            && Magnitude(At(u, p).count) < Magnitude(At(t, p).count)
            && FindIn(u, w, now, c) == FindIn(t, w, now, c)
  {
    var r := Older(At(t, p), c);
    assert SetOk(t[p.row], c) && InRange(t[p.row][p.way], c);
    PutKeepsOk(t, c, p, r);
    var u := Put(t, p, r);
    FirstTagUnique(u[p.row], Tag(w), p.way);
    FindMatch(t, w, now, c, p.way);
    FindMatch(u, w, now, c, p.way);
    PutTwice(t, p, r, Age(r, now, c));
  }

  lemma PutTwice(t: Table, p: Slot, r: Record, q: Record)
    requires InTable(t, p)
    ensures InTable(Put(t, p, r), p) && Put(Put(t, p, r), p, q) == Put(t, p, q)
  {
    assert t[p.row][p.way := r][p.way := q] == t[p.row][p.way := q];
  }
}

/** The table geometry checks at the end of `configure`. */
module Geometry {
  import opened RC5
  import opened Powers
  import MapTRW

  /** `Undefined`: the code divides by zero, or its doubling counter wraps to zero and never ends. */
  datatype Verdict = Accepted(mask: int, shift: int) | Rejected | Undefined

  ghost predicate IsPow2(n: int) {
    exists k: nat :: n == Pow2(k)
  }

  lemma {:induction false} PowDivides(k: nat, m: nat)
    requires k <= m
    ensures Pow2(m) % Pow2(k) == 0 && Pow2(m) / Pow2(k) == Pow2(m - k) && Pow2(m) == Pow2(m - k) * Pow2(k)
  {
    PowSum(m - k, k);
    DivUnique(Pow2(m), Pow2(m - k), 0, Pow2(k));
  }

  lemma NotPow2(x: nat, k: nat)
    requires Pow2(k) <= x && x % Pow2(k) != 0
    ensures !IsPow2(x)
  {
    forall m: nat | x == Pow2(m)
      ensures false
    {
      if m < k {
        PowMonotone(m, k);
      } else {
        PowDivides(k, m);
      }
    }
  }

  /** A multiple of p in [p, 2p) is p. */
  lemma OnlyMultiple(x: nat, p: nat)
    requires p > 0 && x % p == 0 && p <= x < 2 * p
    ensures x == p
  {
    DivUnique(x, 1, x - p, p);
  }

  lemma Pow31()
    ensures Pow2(31) == 0x8000_0000 && Pow2(32) == BASE * BASE
  {
    Pow16();
    PowSum(16, 16);
  }

  /** Doubling an unsigned int. */
  function Double(i: int): int {
    (i * 2) % (BASE * BASE)
  }

  lemma DoublePower(k: nat)
    requires k <= 31
    ensures Double(Pow2(k)) == if k == 31 then 0 else Pow2(k + 1)
  {
    Pow31();
    PowMonotone(k + 1, 32);
  }

  /** The counter is 2^k and every smaller power divided x. */
  ghost predicate Divided(x: Word32, i: int, k: nat) {
    k <= 31 && i == Pow2(k) && (k > 0 ==> Pow2(k - 1) <= x && x % Pow2(k - 1) == 0)
  }

  lemma Advance(x: Word32, i: int, k: nat)
    requires Divided(x, i, k) && 0 < i <= x && x % i == 0
    ensures if Double(i) == 0 then x == 0x8000_0000 else k < 31 && Divided(x, Double(i), k + 1)
    ensures Double(i) != 0 ==> i < Double(i) < BASE * BASE
  {
    Pow31();
    DoublePower(k);
    if k == 31 {
      OnlyMultiple(x, Pow2(31));
    } else {
      PowMonotone(k, k + 1);
      PowMonotone(k + 1, 32);
    }
  }

  lemma Finish(x: Word32, i: int, k: nat)
    requires Divided(x, i, k) && x < i
    ensures x == 0 || (IsPow2(x) && x < 0x8000_0000)
  {
    Pow31();
    if k > 0 {
      OnlyMultiple(x, Pow2(k - 1));
      PowMonotone(k - 1, 31);
    }
  }

  lemma HighPower()
    ensures IsPow2(0x8000_0000)
  {
    Pow31();
  }

  /** The two divisibility loops: `Accepted` here means the loop ends without an error. */
  method CheckPowerOfTwo(x: Word32) returns (r: Verdict)
    ensures r.Accepted? <==> x == 0 || (IsPow2(x) && x < 0x8000_0000)
    ensures r.Undefined? <==> x == 0x8000_0000
  {
    var i := 1;
    ghost var k: nat := 0;
    HighPower();
    while i <= x
      invariant Divided(x, i, k) && i > 0
      decreases BASE * BASE - i
    {
      if x % i != 0 || x < 1 {
        NotPow2(x, k);
        return Rejected;
      }
      Advance(x, i, k);
      i := Double(i);
      if i == 0 {
        return Undefined;
      }
      k := k + 1;
    }
    Finish(x, i, k);
    return Accepted(0, 0);
  }

  /** The shift loop; 0 stands for the case in which its counter wraps and it never ends. */
  method ComputeShift(sets: Word32) returns (shift: nat)
    ensures shift == 0 <==> sets > 0x8000_0000
    ensures shift > 0 ==> shift <= 32 && sets <= Pow2(32 - shift) && (shift < 32 ==> Pow2(31 - shift) < sets)
  {
    shift := 32;
    var i := 1;
    Pow31();
    while i < sets
      invariant 1 <= shift <= 32 && i == Pow2(32 - shift)
      invariant shift < 32 ==> Pow2(31 - shift) < sets
      decreases shift
    {
      DoublePower(32 - shift);
      shift := shift - 1;
      i := Double(i);
      if i == 0 {
        return 0;
      }
    }
    PowMonotone(32 - shift, 31);
  }

  /**
    A geometry is accepted exactly when associativity is a power of two and there are 2^16 sets, so that 16 index bits and
    16 tag bits together are the whole cipher word.
   */
  method Configure(size: Word32, assoc: Word32) returns (r: Verdict)
    ensures r.Accepted? <==> IsPow2(assoc) && size == BASE * assoc && size < 0x8000_0000
    ensures r.Accepted? ==> r.mask == BASE - 1 && r.shift == 16
    ensures r.Accepted? ==>
              forall w: Word32 :: MapTRW.Index(w) == w % (r.mask + 1) && MapTRW.Tag(w) == w / Pow2(r.shift)
  {
    if assoc == 0 {
      NonZero();
      return Undefined;
    }
    var sets := size / assoc;
    QuotientBound(size, assoc);
    var mask := sets - 1;
    AcceptedSizes(size, assoc);
    var shift := ComputeShift(sets);
    if shift == 0 {
      return Undefined;
    }
    ShiftMeansSets(sets, shift);
    var a := CheckPowerOfTwo(assoc);
    if !a.Accepted? {
      SmallAssoc(size, assoc);
      return a;
    }
    var s := CheckPowerOfTwo(size);
    if !s.Accepted? {
      return s;
    }
    if sets < 65536 || shift < 16 {
      return Rejected;
    }
    Pow16();
    return Accepted(mask, shift);
  }

  lemma QuotientBound(n: Word32, d: nat)
    requires d > 0
    ensures 0 <= n / d <= n
  {
  }

  lemma SmallAssoc(size: Word32, assoc: Word32)
    ensures size == BASE * assoc && size < 0x8000_0000 ==> assoc < 0x8000_0000
  {
  }

  lemma NonZero()
    ensures !IsPow2(0)
  {
  }

  /** 2^(32-shift) is the first power of two that reaches `sets`. */
  lemma ShiftMeansSets(sets: nat, shift: nat)
    requires 1 <= shift <= 32 && sets <= Pow2(32 - shift) && (shift < 32 ==> Pow2(31 - shift) < sets)
    ensures sets >= 65536 && shift >= 16 <==> sets == 65536
    ensures sets == 65536 ==> shift == 16
  {
    Pow16();
    if shift >= 16 {
      PowMonotone(32 - shift, 16);
    } else {
      PowMonotone(16, 31 - shift);
    }
  }

  /** For powers of two the quotient is 2^16 exactly when the product is exact. */
  lemma AcceptedSizes(size: nat, assoc: nat)
    requires assoc > 0
    ensures IsPow2(assoc) && IsPow2(size) && size / assoc == BASE ==> size == BASE * assoc
    ensures IsPow2(assoc) && size == BASE * assoc ==> IsPow2(size) && size / assoc == BASE
  {
    Pow16();
    if IsPow2(assoc) && IsPow2(size) && size / assoc == BASE {
      var a: nat :| size == Pow2(a);
      var b: nat :| assoc == Pow2(b);
      if a < b {
        PowMonotone(a, b);
        DivUnique(size, 0, size, assoc);
      } else {
        PowDivides(b, a);
      }
    }
    if IsPow2(assoc) && size == BASE * assoc {
      var b: nat :| assoc == Pow2(b);
      PowSum(16, b);
      DivUnique(size, BASE, 0, assoc);
    }
  }
}
