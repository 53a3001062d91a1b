/** Events of a sleeping accessory: serial numbers, deduplication, and the advert and poll tasks. */
module SleepyEvents {
  import opened Bytes

  // ---- State numbers (section 3.2 of RFC 1982) ----

  const WRAP := 0x10000
  const HALF := 0x8000

  /** The 16-bit number on the air for an unwrapped state number. */
  function Wrap(number: nat): u16
  {
    number % WRAP
  }

  /** How far `new` lies ahead of `last`, modulo 2^16. */
  function Distance(new_: u16, last: u16): (d: nat)
    ensures d < WRAP
  {
    (new_ - last) % WRAP
  }

  predicate GsnIsNewer(new_: u16, last: u16)
  {
    var diff := Distance(new_, last);
    diff != 0 && diff < HALF
  }

  lemma WrappedDistance(a: nat, b: nat)
    ensures Distance(Wrap(a), Wrap(b)) == (a - b) % WRAP
  {
  }

  /** Within half the range, serial order is the order of the unwrapped numbers; beyond it, it need not be. */
  lemma NewerExactly(a: nat, b: nat)
    ensures GsnIsNewer(Wrap(a), Wrap(b)) <==> 0 < (a - b) % WRAP < HALF
    ensures -HALF < a - b < HALF ==> (GsnIsNewer(Wrap(a), Wrap(b)) <==> a > b) && (Wrap(a) == Wrap(b) <==> a == b)
  {
    WrappedDistance(a, b);
  }

  lemma Advance(last: nat, gsn: u16)
    ensures Wrap(last + Distance(gsn, Wrap(last))) == gsn
  {
  }

  // ---- Deduplication ----

  /** The records after a call, and whether the event is to be emitted. */
  function Dedup(emitted: map<nat, u16>, iid: nat, gsn: u16): (map<nat, u16>, bool)
  {
    if iid in emitted && emitted[iid] == gsn then (emitted, false)
    else if iid !in emitted || GsnIsNewer(gsn, emitted[iid]) then (emitted[iid := gsn], true)
    else (emitted, true)
  }

  /** One call, by unwrapped number and by the task that made it, with the bytes that were read or decrypted. */
  datatype Ask = Ask(aid: nat, iid: nat, number: nat, polled: bool, raw: bytes)

  /** A record, in unwrapped numbers, after one call, and whether the call emits. */
  type Settler = (Option<nat>, nat) -> (nat, bool)

  function Settle(record: Option<nat>, number: nat): (nat, bool)
  {
    match record
    case None => (number, true)
    case Some(r) =>
      if Wrap(r) == Wrap(number) then (r, false)
      else if GsnIsNewer(Wrap(number), Wrap(r)) then (number, true)
      else (r, true)
  }

  /** Within half the range of its record, a call is suppressed exactly when equal, and the record becomes the larger. */
  ghost predicate Exact(settle: Settler)
  {
    && (forall n: nat :: settle(None, n) == (n, true))
    && (forall r: nat, n: nat :: -HALF < n - r < HALF ==> settle(Some(r), n) == (if n > r then n else r, n != r))
  }

  lemma SettleIsExact()
    ensures Exact(Settle)
  {
    forall r: nat, n: nat | -HALF < n - r < HALF
      ensures Settle(Some(r), n) == (if n > r then n else r, n != r)
    {
      NewerExactly(n, r);
    }
  }

  datatype Deduped = Deduped(records: map<nat, nat>, emitted: seq<bool>)

  function RecordOf(records: map<nat, nat>, iid: nat): Option<nat>
  {
    if iid in records then Some(records[iid]) else None
  }

  function Settled(settle: Settler, d: Deduped, ask: Ask): (next: Deduped)
    ensures |next.emitted| == |d.emitted| + 1
  {
    var (record, emit) := settle(RecordOf(d.records, ask.iid), ask.number);
    Deduped(d.records[ask.iid := record], d.emitted + [emit])
  }

  /** A run of calls, each settled against the record of its own characteristic. */
  function DedupRun(settle: Settler, asks: seq<Ask>): (d: Deduped)
    ensures |d.emitted| == |asks|
  {
    if asks == [] then Deduped(map[], [])
    else
      Settled(settle, DedupRun(settle, asks[..|asks| - 1]), asks[|asks| - 1])
  }

  /** The records as the map holds them. */
  ghost predicate Holds(emitted: map<nat, u16>, records: map<nat, nat>)
  {
    emitted.Keys == records.Keys && forall iid :: iid in records ==> emitted[iid] == Wrap(records[iid])
  }

  lemma DedupFollows(emitted: map<nat, u16>, asks: seq<Ask>, ask: Ask)
    requires Holds(emitted, DedupRun(Settle, asks).records)
    ensures var (next, emit) := Dedup(emitted, ask.iid, Wrap(ask.number));
            var d := DedupRun(Settle, asks + [ask]);
            Holds(next, d.records) && d.emitted == DedupRun(Settle, asks).emitted + [emit]
  {
    assert (asks + [ask])[..|asks|] == asks;
  }

  predicate Near(d: Deduped, ask: Ask)
  {
    ask.iid in d.records ==> -HALF < ask.number - d.records[ask.iid] < HALF
  }

  /** Every call is within 32767 of its characteristic's record. */
  predicate WithinWindow(settle: Settler, asks: seq<Ask>)
  {
    asks == [] ||
    (WithinWindow(settle, asks[..|asks| - 1]) && Near(DedupRun(settle, asks[..|asks| - 1]), asks[|asks| - 1]))
  }

  /** `number` is the largest emitted for `iid`, and nothing larger was even asked for. */
  ghost predicate NewestEmitted(asks: seq<Ask>, emitted: seq<bool>, iid: nat, number: nat)
    requires |emitted| == |asks|
  {
    && (exists k :: 0 <= k < |asks| && asks[k].iid == iid && asks[k].number == number && emitted[k])
    && (forall k :: 0 <= k < |asks| && asks[k].iid == iid ==> asks[k].number <= number)
  }

  ghost predicate RecordsAreNewest(asks: seq<Ask>, d: Deduped)
    requires |d.emitted| == |asks|
  {
    && (forall k :: 0 <= k < |asks| ==> asks[k].iid in d.records)
    && (forall iid :: iid in d.records ==> NewestEmitted(asks, d.emitted, iid, d.records[iid]))
  }

  lemma {:induction false} RunIsNewest(settle: Settler, asks: seq<Ask>)
    requires Exact(settle) && WithinWindow(settle, asks)
    ensures RecordsAreNewest(asks, DedupRun(settle, asks))
  {
    if asks != [] {
      var front, ask := asks[..|asks| - 1], asks[|asks| - 1];
      RunIsNewest(settle, front);
      NewestStep(settle, front, DedupRun(settle, front), ask);
      assert front + [ask] == asks;
    }
  }

  lemma NewestStep(settle: Settler, asks: seq<Ask>, d: Deduped, ask: Ask)
    requires Exact(settle) && |d.emitted| == |asks| && RecordsAreNewest(asks, d) && Near(d, ask)
    ensures RecordsAreNewest(asks + [ask], Settled(settle, d, ask))
  {
    var longer, next := asks + [ask], Settled(settle, d, ask);
    forall iid | iid in next.records ensures NewestEmitted(longer, next.emitted, iid, next.records[iid]) {
      if iid in d.records {
        var k :| 0 <= k < |asks| && asks[k].iid == iid && asks[k].number == d.records[iid] && d.emitted[k];
        var best := if ask.iid == iid && ask.number > d.records[iid] then |asks| else k;
        assert longer[best].iid == iid && longer[best].number == next.records[iid] && next.emitted[best];
      } else {
        assert longer[|asks|] == ask && next.emitted[|asks|];
      }
    }
  }

  /**
   * Within the window: every record is the newest number emitted for its characteristic, the last call
   * lowers none, and it was suppressed exactly when its number equalled the record. (Every call of a
   * longer run is the last one of a prefix, which is within the window too.)
   */
  lemma RecordIsNewest(asks: seq<Ask>)
    requires WithinWindow(Settle, asks)
    ensures RecordsAreNewest(asks, DedupRun(Settle, asks))
    ensures asks != [] ==>
              var n := |asks| - 1;
              var before, after := DedupRun(Settle, asks[..n]), DedupRun(Settle, asks);
              && (forall iid :: iid in before.records ==> iid in after.records && before.records[iid] <= after.records[iid])
              && (after.emitted[n] <==> !(asks[n].iid in before.records && before.records[asks[n].iid] == asks[n].number))
  {
    SettleIsExact();
    RunIsNewest(Settle, asks);
    if asks != [] { LastCall(Settle, DedupRun(Settle, asks[..|asks| - 1]), asks[|asks| - 1]); }
  }

  lemma LastCall(settle: Settler, d: Deduped, ask: Ask)
    requires Exact(settle) && Near(d, ask)
    ensures var next := Settled(settle, d, ask);
            && (forall iid :: iid in d.records ==> iid in next.records && d.records[iid] <= next.records[iid])
            && (next.emitted[|d.emitted|] <==> !(ask.iid in d.records && d.records[ask.iid] == ask.number))
  {
  }

  /** With no window assumed, a call is lost exactly when it differs from the record by a multiple of 65536. */
  lemma SuppressedExactly(record: nat, number: nat)
    ensures var (next, emit) := Settle(Some(record), number);
            && (!emit <==> (number - record) % WRAP == 0)
            && next == if 0 < (number - record) % WRAP < HALF then number else record
  {
    NewerExactly(number, record);
    SameExactly(number, record);
  }

  lemma SameExactly(a: nat, b: nat)
    ensures Wrap(a) == Wrap(b) <==> (a - b) % WRAP == 0
  {
  }

  // ---- The candidate search over an encrypted broadcast ----

  /** The payload decrypts under this number and names it. */
  predicate Answers(open: u16 -> Option<bytes>, gsn: u16)
  {
    open(gsn).Some? && |open(gsn).value| >= 12 && FromLe16(open(gsn).value[..2]) == gsn
  }

  /** The first candidate that answers, if it is newer than where the search started. */
  function SearchAmong(open: u16 -> Option<bytes>, start: u16, candidates: seq<u16>): (r: Option<u16>)
    ensures r.Some? ==> r.value in candidates && Answers(open, r.value) && GsnIsNewer(r.value, start)
    decreases |candidates|
  {
    if candidates == [] then None
    else if !Answers(open, candidates[0]) then SearchAmong(open, start, candidates[1..])
    else if GsnIsNewer(candidates[0], start) then Some(candidates[0])
    else None
  }

  /** The first candidate that answers decides: a stale one ends the search, and without one nothing is found. */
  lemma {:induction false} FirstAnswerDecides(open: u16 -> Option<bytes>, start: u16, candidates: seq<u16>, k: nat)
    requires k <= |candidates| && forall i :: 0 <= i < k ==> !Answers(open, candidates[i])
    requires k < |candidates| ==> Answers(open, candidates[k])
    ensures SearchAmong(open, start, candidates) ==
            if k < |candidates| && GsnIsNewer(candidates[k], start) then Some(candidates[k]) else None
    decreases k
  {
    if k > 0 { FirstAnswerDecides(open, start, candidates[1..], k - 1); }
  }

  /** Next, current, then the window up to +100. */
  function Candidates(start: u16): seq<u16>
  {
    [Wrap(start + 1), start] + seq<u16>(99, i requires 0 <= i < 99 => Wrap(start + 2 + i))
  }

  method SearchCandidates(open: u16 -> Option<bytes>, start: u16) returns (r: Option<u16>)
    ensures r == SearchAmong(open, start, Candidates(start))
  {
    var candidates := Candidates(start);
    var i := 0;
    while i < |candidates|
      invariant 0 <= i <= |candidates|
      invariant SearchAmong(open, start, candidates[i..]) == SearchAmong(open, start, candidates)
    {
      var gsn := candidates[i];
      assert candidates[i..][0] == gsn && candidates[i..][1..] == candidates[i + 1..];
      i := i + 1;
      var pt := open(gsn);
      if pt.None? { continue; }
      if |pt.value| < 12 { continue; }
      if FromLe16(pt.value[..2]) != gsn { continue; }
      if !GsnIsNewer(gsn, start) { return None; }
      return Some(gsn);
    }
    r := None;
  }

  lemma CandidatesCover(start: u16, gsn: u16)
    ensures gsn in Candidates(start) <==> Distance(gsn, start) <= 100
  {
    if Distance(gsn, start) <= 100 { NearIsCandidate(start, gsn); }
    if gsn in Candidates(start) {
      var i :| 0 <= i < |Candidates(start)| && Candidates(start)[i] == gsn;
      CandidateIsNear(start, i);
    }
  }

  lemma NearIsCandidate(start: u16, gsn: u16)
    requires Distance(gsn, start) <= 100
    ensures gsn in Candidates(start)
  {
    var d := Distance(gsn, start);
    var cs := Candidates(start);
    Advance(start, gsn);
    assert Wrap(start) == start;
    assert gsn == if d == 1 then cs[0] else if d == 0 then cs[1] else cs[d];
  }

  lemma CandidateIsNear(start: u16, i: nat)
    requires i < |Candidates(start)|
    ensures Distance(Candidates(start)[i], start) <= 100
  {
    var ahead := if i == 0 then 1 else if i == 1 then 0 else i;
    assert Candidates(start)[i] == Wrap(start + ahead);
    WrappedDistance(start + ahead, start);
  }

  /** The payload decrypts under one number only. */
  ghost predicate OpensOnlyAt(open: u16 -> Option<bytes>, gsn: u16)
  {
    forall g: u16 :: open(g).Some? ==> g == gsn
  }

  /**
   * For any order of the candidates: a payload that opens under one number is accepted, as that number,
   * exactly when it is well formed and 1 to 100 ahead of the start.
   */
  lemma {:induction false} SearchExactly(open: u16 -> Option<bytes>, start: u16, gsn: u16, candidates: seq<u16>)
    requires OpensOnlyAt(open, gsn)
    requires forall g: u16 :: g in candidates ==> Distance(g, start) <= 100
    ensures SearchAmong(open, start, candidates) ==
            if gsn in candidates && Answers(open, gsn) && 1 <= Distance(gsn, start) <= 100 then Some(gsn) else None
    decreases |candidates|
  {
    if candidates != [] {
      assert candidates == [candidates[0]] + candidates[1..];
      if candidates[0] != gsn || !Answers(open, gsn) {
        SearchExactly(open, start, gsn, candidates[1..]);
      }
    }
  }

  lemma SearchAcceptsWindow(open: u16 -> Option<bytes>, start: u16, gsn: u16)
    requires OpensOnlyAt(open, gsn)
    ensures SearchAmong(open, start, Candidates(start)) ==
            if Answers(open, gsn) && 1 <= Distance(gsn, start) <= 100 then Some(gsn) else None
  {
    forall g: u16 ensures g in Candidates(start) <==> Distance(g, start) <= 100 { CandidatesCover(start, g); }
    SearchExactly(open, start, gsn, Candidates(start));
  }

  /** The order they are tried in: the next number, the current one, then two ahead and on. */
  lemma {:induction false} CandidatesInOrder(start: u16, i: nat)
    requires i < 101
    ensures |Candidates(start)| == 101
    ensures Candidates(start)[i] == (start + (if i == 0 then 1 else if i == 1 then 0 else i)) % 65536
  {
    assert start % 65536 == start;
    if i >= 2 { assert Candidates(start)[i] == Wrap(start + 2 + (i - 2)); }
  }
}
