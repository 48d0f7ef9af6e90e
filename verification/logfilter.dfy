/**
 * What the two splunkd.log filters share: the time window a record must
 * fall in, the record kept for a line, the verdict on one line, the
 * left-to-right selection over all lines (which stops at the first line
 * whose timestamp cannot be parsed, since nothing catches that error), and
 * the shaping of what is printed at the end.
 */
module LogFilter {
  import opened Wrappers
  import opened Chars
  import Digits
  import E = Envelope

  /** Instants are microseconds since the epoch; a missing upper end means
      no upper bound. Both ends are inclusive. */
  datatype Window = Window(lower: int, upper: Option<int>)

  predicate InWindow(w: Window, t: int) {
    w.lower <= t && (w.upper.Some? ==> t <= w.upper.value)
  }

  /** The groups of a matched line plus `event_parsed`. */
  datatype Record = Record(envelope: E.Envelope, eventParsed: map<string, string>)

  /** Why a line was passed over. */
  datatype Skip = NoMatch | OtherComponent | NoEvent | OutsideWindow | NoPairs

  datatype Verdict = Skipped(why: Skip) | Aborted | Kept(record: Record)

  /** `--component`: applied only when given and non-empty, then by exact
      equality. */
  predicate ComponentPasses(filter: Option<string>, component: string) {
    filter.None? || filter.value == [] || filter.value == component
  }

  /** Shift the index of a failure past `n` earlier lines. */
  function After(n: nat, r: Result<seq<Record>, nat>): Result<seq<Record>, nat> {
    match r
    case Success(rs) => Success(rs)
    case Failure(i) => Failure(n + i)
  }

  /** The verdict of `judge` on each line, in input order. */
  function Map(judge: string -> Verdict, lines: seq<string>): (vs: seq<Verdict>)
    ensures |vs| == |lines| && forall i :: 0 <= i < |lines| ==> vs[i] == judge(lines[i])
  {
    seq(|lines|, i requires 0 <= i < |lines| => judge(lines[i]))
  }

  lemma MapAppend(judge: string -> Verdict, a: seq<string>, b: seq<string>)
    ensures Map(judge, a + b) == Map(judge, a) + Map(judge, b)
  {
    var l, r := Map(judge, a + b), Map(judge, a) + Map(judge, b);
    forall i | 0 <= i < |l|
      ensures l[i] == r[i]
    {
      if i < |a| {
        assert (a + b)[i] == a[i];
      } else {
        assert (a + b)[i] == b[i - |a|];
      }
    }
  }

  /** The `for line in input_handle` loop over the verdicts on the lines:
      the kept records in input order, or the index of the first line whose
      timestamp raised. */
  function Collect(vs: seq<Verdict>): (r: Result<seq<Record>, nat>)
    ensures r.Success? <==> forall j :: 0 <= j < |vs| ==> !vs[j].Aborted?
    ensures r.Failure? ==> r.error < |vs| && vs[r.error].Aborted?
    ensures r.Failure? ==> forall j :: 0 <= j < r.error ==> !vs[j].Aborted?
    ensures r.Success? ==> |r.value| <= |vs|
  {
    if vs == [] then Success([])
    else
      var rest := After(1, Collect(vs[1..]));
      match vs[0]
      case Aborted => Failure(0)
      case Skipped(_) => rest
      case Kept(rec) => if rest.Success? then Success([rec] + rest.value) else rest
  }

  /** `idx` lists, in increasing order, exactly the kept lines, and `rs`
      holds their records. */
  ghost predicate Picks(vs: seq<Verdict>, idx: seq<nat>, rs: seq<Record>) {
    && |idx| == |rs|
    && (forall k :: 0 <= k < |idx| ==> idx[k] < |vs| && vs[idx[k]] == Kept(rs[k]))
    && (forall k1, k2 :: 0 <= k1 < k2 < |idx| ==> idx[k1] < idx[k2])
    && (forall i :: 0 <= i < |vs| && vs[i].Kept? ==> i in idx)
  }

  function Shift(idx: seq<nat>): (r: seq<nat>)
    ensures |r| == |idx| && forall k :: 0 <= k < |idx| ==> r[k] == idx[k] + 1
  {
    if idx == [] then [] else [idx[0] + 1] + Shift(idx[1..])
  }

  /** Shifting a pick of `vs[1..]` names the same records in `vs`. */
  lemma ShiftKeeps(vs: seq<Verdict>, idx: seq<nat>, rs: seq<Record>)
    requires vs != [] && Picks(vs[1..], idx, rs)
    ensures forall k :: 0 <= k < |idx| ==> Shift(idx)[k] < |vs| && vs[Shift(idx)[k]] == Kept(rs[k])
  {
    var sh := Shift(idx);
    forall k | 0 <= k < |idx|
      ensures sh[k] < |vs| && vs[sh[k]] == Kept(rs[k])
    {
      assert sh[k] == idx[k] + 1;
      assert vs[1..][idx[k]] == vs[idx[k] + 1];
    }
  }

  /** Shifting a pick of `vs[1..]` covers every kept line after the first. */
  lemma ShiftCovers(vs: seq<Verdict>, idx: seq<nat>, rs: seq<Record>)
    requires vs != [] && Picks(vs[1..], idx, rs)
    ensures forall i :: 0 < i < |vs| && vs[i].Kept? ==> i in Shift(idx)
  {
    var sh := Shift(idx);
    forall i | 0 < i < |vs| && vs[i].Kept?
      ensures i in sh
    {
      assert vs[1..][i - 1] == vs[i];
      var k :| 0 <= k < |idx| && idx[k] == i - 1;
      assert sh[k] == i;
    }
  }

  lemma PicksSkip(vs: seq<Verdict>, idx: seq<nat>, rs: seq<Record>)
    requires vs != [] && Picks(vs[1..], idx, rs)
    requires !vs[0].Kept?
    ensures Picks(vs, Shift(idx), rs)
  {
    ShiftKeeps(vs, idx, rs);
    ShiftCovers(vs, idx, rs);
  }

  lemma ConsKeeps(vs: seq<Verdict>, idx: seq<nat>, rs: seq<Record>)
    requires vs != [] && vs[0].Kept?
    requires |idx| == |rs| && forall k :: 0 <= k < |idx| ==> idx[k] < |vs| && vs[idx[k]] == Kept(rs[k])
    ensures forall k :: 0 <= k < |idx| + 1 ==> ([0] + idx)[k] < |vs| && vs[([0] + idx)[k]] == Kept(([vs[0].record] + rs)[k])
  {
    forall k | 0 <= k < |idx| + 1
      ensures ([0] + idx)[k] < |vs| && vs[([0] + idx)[k]] == Kept(([vs[0].record] + rs)[k])
    {
      if k > 0 {
        assert ([0] + idx)[k] == idx[k - 1] && ([vs[0].record] + rs)[k] == rs[k - 1];
      }
    }
  }

  lemma ConsOrdered(idx: seq<nat>)
    requires forall k :: 0 <= k < |idx| ==> idx[k] > 0
    requires forall k1, k2 :: 0 <= k1 < k2 < |idx| ==> idx[k1] < idx[k2]
    ensures forall k1, k2 :: 0 <= k1 < k2 < |idx| + 1 ==> ([0] + idx)[k1] < ([0] + idx)[k2]
  {
    var idx' := [0] + idx;
    forall k1, k2 | 0 <= k1 < k2 < |idx'|
      ensures idx'[k1] < idx'[k2]
    {
      assert idx'[k2] == idx[k2 - 1];
      if k1 > 0 {
        assert idx'[k1] == idx[k1 - 1];
      }
    }
  }

  lemma ConsCovers(vs: seq<Verdict>, idx: seq<nat>)
    requires forall i :: 0 < i < |vs| && vs[i].Kept? ==> i in idx
    ensures forall i :: 0 <= i < |vs| && vs[i].Kept? ==> i in [0] + idx
  {
    forall i | 0 <= i < |vs| && vs[i].Kept?
      ensures i in [0] + idx
    {
      if i > 0 {
        var k :| 0 <= k < |idx| && idx[k] == i;
        assert ([0] + idx)[k + 1] == i;
      }
    }
  }

  lemma PicksKeep(vs: seq<Verdict>, idx: seq<nat>, rs: seq<Record>)
    requires vs != [] && Picks(vs[1..], idx, rs)
    requires vs[0].Kept?
    ensures Picks(vs, [0] + Shift(idx), [vs[0].record] + rs)
  {
    ShiftKeeps(vs, idx, rs);
    ShiftCovers(vs, idx, rs);
    ConsKeeps(vs, Shift(idx), rs);
    ConsOrdered(Shift(idx));
    ConsCovers(vs, Shift(idx));
  }

  /** Every kept line contributes its record once, in input order, and no
      other record appears. */
  lemma {:induction false} CollectPicks(vs: seq<Verdict>, rs: seq<Record>)
    requires Collect(vs) == Success(rs)
    ensures exists idx :: Picks(vs, idx, rs)
  {
    if vs == [] {
      assert Picks(vs, [], rs);
    } else {
      var tail := Collect(vs[1..]);
      match vs[0]
      case Skipped(_) =>
        CollectPicks(vs[1..], tail.value);
        var idx :| Picks(vs[1..], idx, tail.value);
        PicksSkip(vs, idx, tail.value);
      case Kept(rec) =>
        CollectPicks(vs[1..], tail.value);
        var idx :| Picks(vs[1..], idx, tail.value);
        PicksKeep(vs, idx, tail.value);
    }
  }

  /** Lines are judged independently: collecting over `a + b` is collecting
      over `a` and then over `b`. */
  lemma {:induction false} CollectAppend(a: seq<Verdict>, b: seq<Verdict>)
    ensures Collect(a + b) ==
      match Collect(a)
      case Failure(i) => Failure(i)
      case Success(ra) =>
        match Collect(b)
        case Failure(j) => Failure(|a| + j)
        case Success(rb) => Success(ra + rb)
  {
    if a == [] {
      assert a + b == b;
      if Collect(b).Success? {
        assert [] + Collect(b).value == Collect(b).value;
      }
    } else {
      assert (a + b)[1..] == a[1..] + b;
      assert (a + b)[0] == a[0];
      CollectAppend(a[1..], b);
      match a[0]
      case Aborted =>
      case Skipped(_) =>
      case Kept(rec) =>
        if Collect(a[1..]).Success? && Collect(b).Success? {
          assert [rec] + (Collect(a[1..]).value + Collect(b).value)
              == ([rec] + Collect(a[1..]).value) + Collect(b).value;
        }
    }
  }

  /** Collecting over a single verdict. */
  lemma CollectOne(v: Verdict)
    ensures Collect([v]) ==
      match v
      case Aborted => Failure(0)
      case Skipped(_) => Success([])
      case Kept(rec) => Success([rec])
  {
    assert [v][1..] == [];
    assert Collect([v][1..]) == Success([]);
    if v.Kept? {
      assert [v.record] + [] == [v.record];
    }
  }

  /** A run that stops within `a` stops at the same line whatever follows. */
  lemma CollectPrefixFails(a: seq<Verdict>, b: seq<Verdict>)
    requires Collect(a).Failure?
    ensures Collect(a + b) == Collect(a)
  {
    CollectAppend(a, b);
  }

  /** One more verdict at the end: what the loop does with the next line. */
  lemma CollectSnoc(a: seq<Verdict>, v: Verdict)
    ensures Collect(a + [v]) ==
      match Collect(a)
      case Failure(j) => Failure(j)
      case Success(ra) =>
        match v
        case Aborted => Failure(|a|)
        case Skipped(_) => Success(ra)
        case Kept(rec) => Success(ra + [rec])
  {
    CollectAppend(a, [v]);
    CollectOne(v);
    if Collect(a).Success? {
      assert Collect(a).value + [] == Collect(a).value;
    }
  }

  /** When no line is kept, nothing is collected. */
  lemma {:induction false} CollectNothingKept(vs: seq<Verdict>)
    requires forall i :: 0 <= i < |vs| ==> !vs[i].Kept?
    ensures Collect(vs).Success? ==> Collect(vs).value == []
  {
    if vs != [] {
      CollectNothingKept(vs[1..]);
    }
  }

  /** `u` keeps exactly the records `v` keeps, and aborts at least where
      `v` aborts. */
  predicate Refines(v: Verdict, u: Verdict) {
    && (v.Kept? <==> u.Kept?)
    && (v.Kept? ==> v == u)
    && (v.Aborted? ==> u.Aborted?)
  }

  /** Two loops whose verdicts agree line by line in that sense: the second
      stops whenever the first does, and when neither stops they keep the
      same records. */
  lemma {:induction false} CollectRefines(vs: seq<Verdict>, us: seq<Verdict>)
    requires |vs| == |us| && forall i :: 0 <= i < |vs| ==> Refines(vs[i], us[i])
    ensures Collect(vs).Failure? ==> Collect(us).Failure?
    ensures Collect(vs).Success? && Collect(us).Success? ==> Collect(vs) == Collect(us)
  {
    if vs != [] {
      assert Refines(vs[0], us[0]);
      CollectRefines(vs[1..], us[1..]);
    }
  }

  /** What the end of `cli` prints: the count without a newline, one JSON
      block, one line per record, or nothing. */
  datatype Output = Silent | CountText(text: string) | JsonBlock(records: seq<Record>) | RecordLines(records: seq<Record>)

  function Shape(count: bool, json: bool, rs: seq<Record>): (o: Output)
    ensures o.CountText? <==> count
    ensures o.CountText? ==> AllIn(o.text, Digit) && Digits.Number(o.text) == |rs|
    ensures o.CountText? ==> o.text != [] && (o.text[0] != '0' || o.text == "0")
    ensures o.Silent? <==> !count && rs == []
    ensures o.JsonBlock? <==> !count && json && rs != []
    ensures (o.JsonBlock? || o.RecordLines?) ==> o.records == rs
  {
    if count then
      Digits.NumberDecimal(|rs|);
      CountText(Digits.Decimal(|rs|))
    else if rs == [] then Silent
    else if json then JsonBlock(rs)
    else RecordLines(rs)
  }
}
