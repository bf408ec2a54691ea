/**
 The history of a FlowAggregator: which reports each bundler had made when an accumulation
 visited it, and how the bytes and the aggregates of accumulations compare over a run.
 */
module FlowHistory {
  import opened FlowSums
  import opened FlowConservation
  import opened FlowAccounting
  import opened FlowTotals

  // ---- Levels: an aggregate's bytes after part of the history ----

  ghost function Blank(n: nat): (start: seq<Reports>)
    ensures |start| == n && forall i :: 0 <= i < n ==> start[i] == map[]
  {
    seq(n, _ => map[])
  }

  /** The aggregates and bytes of wips are those of the reports that each bundler had at its cut. */
  ghost predicate ShowsLevel(wips: Wips, n: nat, events: seq<Event>, cuts: seq<nat>, to: Project)
    requires IsHistory(n, events)
  {
    && IsCuts(cuts, n, |events|)
    && (forall g :: SameBytes(SumOf(wips, g), SumAll(CountersAt(Blank(n), events, cuts), to, g)))
    && (forall g :: g in wips <==> HasMember(CountersAt(Blank(n), events, cuts), to, g))
  }

  lemma CountersAfterEvent(n: nat, events: seq<Event>, e: Event, cuts: seq<nat>)
    requires IsHistory(n, events) && e.bundler < n && IsCuts(cuts, n, |events|)
    ensures IsHistory(n, events + [e]) && IsCuts(cuts, n, |events + [e]|)
    ensures CountersAt(Blank(n), events + [e], cuts) == CountersAt(Blank(n), events, cuts)
  {
    hide After, Counters;
    forall i | 0 <= i < n ensures (events + [e])[..cuts[i]] == events[..cuts[i]] {
    }
  }

  lemma LevelAfterEvent(wips: Wips, n: nat, events: seq<Event>, e: Event, cuts: seq<nat>, to: Project)
    requires IsHistory(n, events) && e.bundler < n && ShowsLevel(wips, n, events, cuts, to)
    ensures IsHistory(n, events + [e]) && ShowsLevel(wips, n, events + [e], cuts, to)
  {
    hide SumAll, HasMember, CountersAt;
    CountersAfterEvent(n, events, e, cuts);
  }

  // ---- One more bundler ----

  lemma {:induction false} AfterWider(n: nat, events: seq<Event>)
    requires IsHistory(n, events)
    ensures IsHistory(n + 1, events) && After(Blank(n + 1), events) == After(Blank(n), events) + [map[]]
  {
    hide Report;
    if events == [] {
      assert Blank(n + 1) == Blank(n) + [map[]];
    } else {
      AfterWider(n, events[..|events| - 1]);
    }
  }

  lemma CountersWider(n: nat, events: seq<Event>, cuts: seq<nat>)
    requires IsHistory(n, events) && IsCuts(cuts, n, |events|)
    ensures IsHistory(n + 1, events) && IsCuts(cuts + [0], n + 1, |events|)
    ensures CountersAt(Blank(n + 1), events, cuts + [0]) == CountersAt(Blank(n), events, cuts) + [map[]]
  {
    hide After, Counters;
    var x, y := CountersAt(Blank(n + 1), events, cuts + [0]), CountersAt(Blank(n), events, cuts) + [map[]];
    forall i | 0 <= i <= n ensures x[i] == y[i] {
      AfterWider(n, events[..(cuts + [0])[i]]);
      NoCounters();
      NoEvents(n, events);
    }
  }

  lemma NoCounters()
    ensures Counters(map[]) == map[]
  {
  }

  lemma NoEvents(n: nat, events: seq<Event>)
    ensures IsHistory(n, events[..0]) && After(Blank(n), events[..0]) == Blank(n)
  {
  }

  lemma SumAllWider(all: seq<Flows>, to: Project, g: Flow)
    ensures SumAll(all + [map[]], to, g) == SumAll(all, to, g)
    ensures HasMember(all + [map[]], to, g) <==> HasMember(all, to, g)
  {
    var wider := all + [map[]];
    SumAllSnoc(wider, |all|, to, g);
    HasMemberSnoc(wider, |all|, to, g);
    assert wider[..|all|] == all && wider[..|all| + 1] == wider;
    assert Group(map[], to, g) == map[] && Keys(map[], to) == {};
  }

  lemma LevelWider(wips: Wips, n: nat, events: seq<Event>, cuts: seq<nat>, to: Project)
    requires IsHistory(n, events) && ShowsLevel(wips, n, events, cuts, to)
    ensures IsHistory(n + 1, events) && ShowsLevel(wips, n + 1, events, cuts + [0], to)
  {
    hide SumAll, HasMember, CountersAt;
    CountersWider(n, events, cuts);
    forall g
      ensures SumAll(CountersAt(Blank(n + 1), events, cuts + [0]), to, g) == SumAll(CountersAt(Blank(n), events, cuts), to, g)
      ensures HasMember(CountersAt(Blank(n + 1), events, cuts + [0]), to, g) <==>
              HasMember(CountersAt(Blank(n), events, cuts), to, g)
    {
      SumAllWider(CountersAt(Blank(n), events, cuts), to, g);
    }
  }

  // ---- Levels never fall ----

  lemma LevelsRise(n: nat, events: seq<Event>, cuts: seq<nat>, cuts': seq<nat>, to: Project, g: Flow)
    requires IsHistory(n, events) && AllNeverDecrease(Blank(n), events)
    requires IsCuts(cuts, n, |events|) && IsCuts(cuts', n, |events|) && NotLater(cuts, cuts')
    ensures NotAbove(SumAll(CountersAt(Blank(n), events, cuts), to, g), SumAll(CountersAt(Blank(n), events, cuts'), to, g))
  {
    CumulativeNeverDecreases(Blank(n), events, cuts, cuts', to, g);
  }

  /** No flow is ever forgotten, whatever the counters do. */
  lemma {:induction false} HistoryKeeps(start: seq<Reports>, events: seq<Event>, i: nat, j: nat, b: nat)
    requires IsHistory(|start|, events) && i <= j <= |events| && b < |start|
    ensures After(start, events[..i])[b].Keys <= After(start, events[..j])[b].Keys
    decreases j
  {
    hide After, Report;
    if i < j {
      HistoryKeeps(start, events, i, j - 1, b);
      AfterSnoc(start, events, j - 1);
      var prev, e := After(start, events[..j - 1]), events[j - 1];
      forall f | f in prev[b] ensures f in After(start, events[..j])[b] {
        ReportKeeps(prev[b], e.infos, f);
      }
    }
  }

  lemma MembersStay(n: nat, events: seq<Event>, cuts: seq<nat>, cuts': seq<nat>, to: Project, g: Flow)
    requires IsHistory(n, events) && IsCuts(cuts, n, |events|) && IsCuts(cuts', n, |events|) && NotLater(cuts, cuts')
    requires HasMember(CountersAt(Blank(n), events, cuts), to, g)
    ensures HasMember(CountersAt(Blank(n), events, cuts'), to, g)
  {
    hide After;
    var x, y := CountersAt(Blank(n), events, cuts), CountersAt(Blank(n), events, cuts');
    var b :| 0 <= b < n && g in Keys(x[b], to);
    HistoryKeeps(Blank(n), events, cuts[b], cuts'[b], b);
    var f :| f in x[b] && to(f) == g;
    assert f in y[b] && to(f) in Keys(y[b], to);
  }

  lemma NothingAtStart(n: nat, events: seq<Event>, to: Project, g: Flow)
    requires IsHistory(n, events)
    ensures IsCuts(seq(n, _ => 0), n, |events|)
    ensures SumAll(CountersAt(Blank(n), events, seq(n, _ => 0)), to, g) == ZERO
  {
    hide After, Counters, SumAll;
    var all := CountersAt(Blank(n), events, seq(n, _ => 0));
    forall i | 0 <= i < n ensures all[i] == map[] {
      NoEvents(n, events);
      NoCounters();
    }
    BlankSum(all, to, g);
  }

  lemma {:induction false} BlankSum(all: seq<Flows>, to: Project, g: Flow)
    requires forall i :: 0 <= i < |all| ==> all[i] == map[]
    ensures SumAll(all, to, g) == ZERO
  {
    if all != [] {
      BlankSum(all[..|all| - 1], to, g);
      assert Group(map[], to, g) == map[];
    }
  }

  // ---- The record of a run ----

  /** For accumulation a, bundler i was visited after the first marks[a][i] reports. */
  ghost predicate IsRecord(n: nat, events: seq<Event>, marks: seq<seq<nat>>, totals: seq<Wips>, to: Project)
    requires IsHistory(n, events)
  {
    && |marks| == |totals|
    && (forall a, b :: 0 <= a < b < |marks| ==> NotLater(marks[a], marks[b]))
    && (forall a :: 0 <= a < |marks| ==> ShowsLevel(totals[a], n, events, marks[a], to))
  }

  lemma RecordAfterEvent(n: nat, events: seq<Event>, e: Event, marks: seq<seq<nat>>, totals: seq<Wips>, to: Project)
    requires IsHistory(n, events) && e.bundler < n && IsRecord(n, events, marks, totals, to)
    ensures IsHistory(n, events + [e]) && IsRecord(n, events + [e], marks, totals, to)
  {
    hide ShowsLevel, NotLater;
    forall a | 0 <= a < |marks| ensures ShowsLevel(totals[a], n, events + [e], marks[a], to) {
      LevelAfterEvent(totals[a], n, events, e, marks[a], to);
    }
  }

  /** A bundler that registers later had reported nothing. */
  ghost function Wider(marks: seq<seq<nat>>): (wider: seq<seq<nat>>)
    ensures |wider| == |marks| && forall a :: 0 <= a < |marks| ==> wider[a] == marks[a] + [0]
  {
    seq(|marks|, a requires 0 <= a < |marks| => marks[a] + [0])
  }

  lemma RecordWider(n: nat, events: seq<Event>, marks: seq<seq<nat>>, totals: seq<Wips>, to: Project)
    requires IsHistory(n, events) && IsRecord(n, events, marks, totals, to)
    ensures IsHistory(n + 1, events) && IsRecord(n + 1, events, Wider(marks), totals, to)
  {
    hide ShowsLevel;
    assert IsHistory(n + 1, events);
    var wider := Wider(marks);
    forall a | 0 <= a < |marks| ensures ShowsLevel(totals[a], n + 1, events, wider[a], to) {
      LevelWider(totals[a], n, events, marks[a], to);
    }
    forall a, b | 0 <= a < b < |marks| ensures NotLater(wider[a], wider[b]) {
      assert NotLater(marks[a], marks[b]);
    }
  }

  /** Every accumulation so far lies before these cuts. */
  ghost predicate AllBefore(marks: seq<seq<nat>>, cuts: seq<nat>) {
    forall a :: 0 <= a < |marks| ==> NotLater(marks[a], cuts)
  }

  lemma MarksAreOld(n: nat, events: seq<Event>, marks: seq<seq<nat>>, totals: seq<Wips>, to: Project, cuts: seq<nat>)
    requires IsHistory(n, events) && IsRecord(n, events, marks, totals, to)
    requires |cuts| == n && forall i :: 0 <= i < n ==> cuts[i] >= |events|
    ensures AllBefore(marks, cuts)
  {
    hide SumAll, HasMember, SameBytes, CountersAt;
    forall a | 0 <= a < |marks| ensures NotLater(marks[a], cuts) {
      assert ShowsLevel(totals[a], n, events, marks[a], to);
    }
  }

  lemma RecordGrows(n: nat, events: seq<Event>, marks: seq<seq<nat>>, totals: seq<Wips>, wips: Wips, cuts: seq<nat>, to: Project)
    requires IsHistory(n, events) && IsRecord(n, events, marks, totals, to) && AllBefore(marks, cuts)
    requires ShowsLevel(wips, n, events, cuts, to)
    ensures IsRecord(n, events, marks + [cuts], totals + [wips], to)
  {
    hide ShowsLevel, NotLater;
  }

  /** Of two accumulations of one run, the later one misses no aggregate, */
  lemma LaterHasAll(n: nat, events: seq<Event>, marks: seq<seq<nat>>, totals: seq<Wips>, to: Project, a: nat, b: nat, g: Flow)
    requires IsHistory(n, events) && IsRecord(n, events, marks, totals, to)
    requires a <= b < |totals| && g in totals[a]
    ensures g in totals[b]
  {
    hide CountersAt, SumAll, HasMember, SumOf;
    assert ShowsLevel(totals[a], n, events, marks[a], to) && ShowsLevel(totals[b], n, events, marks[b], to);
    if a < b {
      assert NotLater(marks[a], marks[b]);
      MembersStay(n, events, marks[a], marks[b], to, g);
    }
  }

  /** and if no flow's counters ever went down, it is nowhere lower. */
  lemma LaterIsNotLower(n: nat, events: seq<Event>, marks: seq<seq<nat>>, totals: seq<Wips>, to: Project, a: nat, b: nat, g: Flow)
    requires IsHistory(n, events) && IsRecord(n, events, marks, totals, to) && AllNeverDecrease(Blank(n), events)
    requires a <= b < |totals|
    ensures NotAbove(SumOf(totals[a], g), SumOf(totals[b], g))
  {
    hide AllNeverDecrease, CountersAt, SumAll, HasMember, SumOf;
    assert ShowsLevel(totals[a], n, events, marks[a], to) && ShowsLevel(totals[b], n, events, marks[b], to);
    assert NotLater(marks[a], marks[b]);
    LevelsRise(n, events, marks[a], marks[b], to, g);
  }

  lemma TotalIsNotNegative(n: nat, events: seq<Event>, marks: seq<seq<nat>>, totals: seq<Wips>, to: Project, b: nat, g: Flow)
    requires IsHistory(n, events) && IsRecord(n, events, marks, totals, to) && AllNeverDecrease(Blank(n), events)
    requires b < |totals|
    ensures NotAbove(ZERO, SumOf(totals[b], g))
  {
    hide AllNeverDecrease, CountersAt, SumAll, HasMember, SumOf;
    assert ShowsLevel(totals[b], n, events, marks[b], to);
    NothingAtStart(n, events, to, g);
    LevelsRise(n, events, seq(n, _ => 0), marks[b], to, g);
  }

  // ---- What an accumulation sees ----

  /** What bundler i held when it was visited are the reports up to its cut. */
  ghost predicate SeenAt(seen: seq<Flows>, cuts: seq<nat>, n: nat, events: seq<Event>)
    requires IsHistory(n, events)
  {
    && |seen| == |cuts| <= n
    && forall i :: 0 <= i < |cuts| ==> SeenThen(seen[i], cuts[i], n, events, i)
  }

  ghost predicate SeenThen(shares: Flows, cut: nat, n: nat, events: seq<Event>, i: nat)
    requires IsHistory(n, events)
  {
    cut <= |events| && i < n && SameCounters(shares, Counters(After(Blank(n), events[..cut])[i]))
  }

  lemma NothingSeen(n: nat, events: seq<Event>)
    requires IsHistory(n, events)
    ensures SeenAt([], [], n, events)
  {
  }

  lemma SeenLater(seen: seq<Flows>, cuts: seq<nat>, n: nat, events: seq<Event>, events': seq<Event>)
    requires IsHistory(n, events) && IsHistory(n, events') && events <= events' && SeenAt(seen, cuts, n, events)
    ensures SeenAt(seen, cuts, n, events')
  {
    hide After, Counters, SameCounters;
    forall i | 0 <= i < |cuts| ensures SeenThen(seen[i], cuts[i], n, events', i) {
      assert SeenThen(seen[i], cuts[i], n, events, i);
      assert events'[..cuts[i]] == events[..cuts[i]];
    }
  }

  lemma SeenOne(seen: seq<Flows>, cuts: seq<nat>, n: nat, events: seq<Event>, shares: Flows)
    requires IsHistory(n, events) && SeenAt(seen, cuts, n, events) && |cuts| < n
    requires SameCounters(shares, Counters(After(Blank(n), events)[|cuts|]))
    ensures SeenAt(seen + [shares], cuts + [|events|], n, events)
  {
    hide SeenThen, After, Counters, SameCounters;
    SeenNow(shares, n, events, |cuts|);
    var seen', cuts' := seen + [shares], cuts + [|events|];
    forall i | 0 <= i < |cuts'| ensures SeenThen(seen'[i], cuts'[i], n, events, i) {
      if i < |cuts| {
        assert seen'[i] == seen[i] && cuts'[i] == cuts[i];
      }
    }
  }

  lemma SeenNow(shares: Flows, n: nat, events: seq<Event>, i: nat)
    requires IsHistory(n, events) && i < n && SameCounters(shares, Counters(After(Blank(n), events)[i]))
    ensures SeenThen(shares, |events|, n, events, i)
  {
    hide After, Counters, SameCounters;
    assert events[..|events|] == events;
  }

  /** What was seen at the cuts is the level of the cuts. */
  lemma SeenIsLevel(wips: Wips, seen: seq<Flows>, kids: seq<Reports>, cuts: seq<nat>, n: nat, events: seq<Event>, to: Project)
    requires IsHistory(n, events) && SeenAt(seen, cuts, n, events) && |cuts| == n && Summed(wips, seen, kids, to)
    ensures ShowsLevel(wips, n, events, cuts, to)
  {
    hide SumAll, After, SumOf, Counters, HasMember, ChildrenOf, MembersAll, SameCounters;
    forall i | 0 <= i < n ensures cuts[i] <= |events| {
      assert SeenThen(seen[i], cuts[i], n, events, i);
    }
    var counters := CountersAt(Blank(n), events, cuts);
    forall i | 0 <= i < n ensures SameCounters(seen[i], counters[i]) {
      assert SeenThen(seen[i], cuts[i], n, events, i);
    }
    forall g
      ensures SameBytes(SumOf(wips, g), SumAll(counters, to, g))
      ensures g in wips <==> HasMember(counters, to, g)
    {
      BytesComeFromReports(seen, counters, to, g);
      SameMembers(seen, counters, to, g);
    }
  }

  lemma AfterAppend(start: seq<Reports>, events: seq<Event>, e: Event)
    requires IsHistory(|start|, events) && e.bundler < |start|
    ensures IsHistory(|start|, events + [e])
    ensures var prev := After(start, events);
            After(start, events + [e]) == prev[e.bundler := Report(prev[e.bundler], e.infos)]
  {
    hide Report;
    assert (events + [e])[..|events|] == events;
  }

  lemma SameMembers(all: seq<Flows>, all': seq<Flows>, to: Project, g: Flow)
    requires |all| == |all'| && forall i :: 0 <= i < |all| ==> SameCounters(all[i], all'[i])
    ensures HasMember(all, to, g) <==> HasMember(all', to, g)
  {
    forall i | 0 <= i < |all| ensures Keys(all[i], to) == Keys(all'[i], to) {
      assert all[i].Keys == all'[i].Keys;
    }
  }
}
