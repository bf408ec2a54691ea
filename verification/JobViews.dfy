/** Hosts grouped into jobs, and a selection of jobs lifted back to their hosts. */
module JobViews {

  datatype JobKey = JobKey(srcDc: string, dstDc: string, job: string)

  /** A child of an aggregate, with the volume that the volume source picks. */
  datatype Host = Host(key: JobKey, volumeBps: int, currentlyLopri: bool)

  datatype Job = Job(childId: nat, volumeBps: int, currentlyLopri: bool)

  /** The volume of the hosts that belong to job j. */
  ghost function VolumeOf(hosts: seq<Host>, index: seq<nat>, j: nat): int
    requires |hosts| == |index|
  {
    if hosts == [] then 0
    else
      var k := |hosts| - 1;
      VolumeOf(hosts[..k], index[..k], j) + if index[k] == j then hosts[k].volumeBps else 0
  }

  ghost predicate SomeLopri(hosts: seq<Host>, index: seq<nat>, j: nat)
    requires |hosts| == |index|
  {
    exists i :: 0 <= i < |hosts| && index[i] == j && hosts[i].currentlyLopri
  }

  ghost predicate Used(index: seq<nat>, j: nat) {
    exists i :: 0 <= i < |index| && index[i] == j
  }

  /** The index is a quotient: in range, onto, and equal exactly for equal keys. */
  ghost predicate IsQuotient(hosts: seq<Host>, index: seq<nat>, numJobs: nat) {
    && |index| == |hosts|
    && (forall i :: 0 <= i < |index| ==> index[i] < numJobs)
    && (forall i, k :: 0 <= i < |index| && 0 <= k < |index| ==> (index[i] == index[k] <==> hosts[i].key == hosts[k].key))
    && (forall j :: 0 <= j < numJobs ==> Used(index, j))
  }

  /** Each job carries what its hosts add up to. */
  ghost predicate CarriesJobs(hosts: seq<Host>, index: seq<nat>, jobs: seq<Job>)
    requires |hosts| == |index|
  {
    forall j :: 0 <= j < |jobs| ==>
      jobs[j].volumeBps == VolumeOf(hosts, index, j) && (jobs[j].currentlyLopri <==> SomeLopri(hosts, index, j))
  }

  /** The jobs found so far, by key. */
  ghost predicate Found(hosts: seq<Host>, index: seq<nat>, jobOf: map<JobKey, nat>, numJobs: nat) {
    && |index| == |hosts|
    && (forall k :: k in jobOf ==> jobOf[k] < numJobs)
    && (forall k, k' :: k in jobOf && k' in jobOf && jobOf[k] == jobOf[k'] ==> k == k')
    && (forall i :: 0 <= i < |hosts| ==> hosts[i].key in jobOf && index[i] == jobOf[hosts[i].key])
    && (forall j :: 0 <= j < numJobs ==> Used(index, j))
  }

  lemma FoundIsQuotient(hosts: seq<Host>, index: seq<nat>, jobOf: map<JobKey, nat>, numJobs: nat)
    requires Found(hosts, index, jobOf, numJobs)
    ensures IsQuotient(hosts, index, numJobs)
  {
  }

  lemma FoundInRange(hosts: seq<Host>, index: seq<nat>, jobOf: map<JobKey, nat>, numJobs: nat)
    requires Found(hosts, index, jobOf, numJobs)
    ensures |index| == |hosts| && forall i :: 0 <= i < |index| ==> index[i] < numJobs
  {
  }

  /** Every job found has the hash of its name as its id. */
  ghost predicate Named(jobOf: map<JobKey, nat>, jobs: seq<Job>, hash: string -> nat) {
    forall k :: k in jobOf ==> jobOf[k] < |jobs| && jobs[jobOf[k]].childId == hash(k.job)
  }

  lemma FoundIsNamed(hosts: seq<Host>, index: seq<nat>, jobOf: map<JobKey, nat>, jobs: seq<Job>, hash: string -> nat)
    requires Found(hosts, index, jobOf, |jobs|) && Named(jobOf, jobs, hash)
    ensures |index| == |hosts|
    ensures forall i :: 0 <= i < |index| ==> index[i] < |jobs| && jobs[index[i]].childId == hash(hosts[i].key.job)
  {
  }

  lemma VolumeSnoc(hosts: seq<Host>, index: seq<nat>, i: nat, idx: nat, j: nat)
    requires |index| == i < |hosts|
    ensures VolumeOf(hosts[..i + 1], index + [idx], j) ==
            VolumeOf(hosts[..i], index, j) + if idx == j then hosts[i].volumeBps else 0
  {
    assert hosts[..i + 1][..i] == hosts[..i] && (index + [idx])[..i] == index;
  }

  lemma SomeLopriSnoc(hosts: seq<Host>, index: seq<nat>, i: nat, idx: nat, j: nat)
    requires |index| == i < |hosts|
    ensures SomeLopri(hosts[..i + 1], index + [idx], j) <==>
            SomeLopri(hosts[..i], index, j) || (idx == j && hosts[i].currentlyLopri)
  {
    var h, n := hosts[..i + 1], index + [idx];
    if SomeLopri(hosts[..i], index, j) {
      var k :| 0 <= k < i && index[k] == j && hosts[..i][k].currentlyLopri;
      assert n[k] == j && h[k].currentlyLopri;
    }
    if idx == j && hosts[i].currentlyLopri {
      assert n[i] == j && h[i].currentlyLopri;
    }
    if SomeLopri(h, n, j) {
      var k :| 0 <= k < |h| && n[k] == j && h[k].currentlyLopri;
      assert k < i ==> index[k] == j && hosts[..i][k].currentlyLopri;
    }
  }

  lemma FoundSnoc(hosts: seq<Host>, index: seq<nat>, jobOf: map<JobKey, nat>, numJobs: nat, i: nat)
    requires i < |hosts| && Found(hosts[..i], index, jobOf, numJobs)
    ensures var key := hosts[i].key;
            if key in jobOf then Found(hosts[..i + 1], index + [jobOf[key]], jobOf, numJobs)
            else Found(hosts[..i + 1], index + [numJobs], jobOf[key := numJobs], numJobs + 1)
  {
    var key := hosts[i].key;
    var idx := if key in jobOf then jobOf[key] else numJobs;
    var n := index + [idx];
    assert forall k :: 0 <= k < i ==> hosts[..i + 1][k] == hosts[..i][k];
    forall j: nat | j < numJobs ensures Used(n, j) {
      assert Used(index, j);
      var k :| 0 <= k < |index| && index[k] == j;
      assert n[k] == j;
    }
    assert n[i] == idx;
  }

  lemma NoHosts(jobs: seq<Job>)
    ensures jobs == [] ==> Found([], [], map[], 0) && CarriesJobs([], [], jobs)
  {
  }

  /** A new job has no hosts yet, so it carries nothing. */
  lemma {:induction false} NewJobIsEmpty(hosts: seq<Host>, index: seq<nat>, j: nat)
    requires |hosts| == |index| && forall i :: 0 <= i < |index| ==> index[i] < j
    ensures VolumeOf(hosts, index, j) == 0 && !SomeLopri(hosts, index, j)
  {
    if hosts != [] {
      var k := |hosts| - 1;
      NewJobIsEmpty(hosts[..k], index[..k], j);
    }
  }

  lemma CarrySnoc(hosts: seq<Host>, index: seq<nat>, jobs: seq<Job>, i: nat, idx: nat)
    requires |index| == i < |hosts| && idx < |jobs| && CarriesJobs(hosts[..i], index, jobs)
    ensures var job := jobs[idx];
            CarriesJobs(hosts[..i + 1], index + [idx], jobs[idx := job.(
              volumeBps := job.volumeBps + hosts[i].volumeBps,
              currentlyLopri := job.currentlyLopri || hosts[i].currentlyLopri)])
  {
    hide VolumeOf, SomeLopri;
    forall j | 0 <= j < |jobs|
      ensures VolumeOf(hosts[..i + 1], index + [idx], j) ==
              VolumeOf(hosts[..i], index, j) + if idx == j then hosts[i].volumeBps else 0
      ensures SomeLopri(hosts[..i + 1], index + [idx], j) <==>
              SomeLopri(hosts[..i], index, j) || (idx == j && hosts[i].currentlyLopri)
    {
      VolumeSnoc(hosts, index, i, idx, j);
      SomeLopriSnoc(hosts, index, i, idx, j);
    }
  }

  lemma CarryNew(hosts: seq<Host>, index: seq<nat>, jobs: seq<Job>, childId: nat)
    requires |hosts| == |index| && CarriesJobs(hosts, index, jobs) && forall i :: 0 <= i < |index| ==> index[i] < |jobs|
    ensures CarriesJobs(hosts, index, jobs + [Job(childId, 0, false)])
  {
    hide VolumeOf, SomeLopri;
    NewJobIsEmpty(hosts, index, |jobs|);
  }

  /** JobLevelView::Create; hash stands for XXH64 of the job name. */
  method Create(hosts: seq<Host>, hash: string -> nat) returns (jobs: seq<Job>, index: seq<nat>)
    ensures IsQuotient(hosts, index, |jobs|)
    ensures CarriesJobs(hosts, index, jobs)
    ensures forall i :: 0 <= i < |index| ==> jobs[index[i]].childId == hash(hosts[i].key.job)
  {
    hide VolumeOf, SomeLopri, CarriesJobs, Found, IsQuotient;
    jobs, index := [], [];
    var jobOf: map<JobKey, nat> := map[];
    NoHosts(jobs);
    assert hosts[..0] == [];
    for i := 0 to |hosts|
      invariant |index| == i
      invariant Found(hosts[..i], index, jobOf, |jobs|) && CarriesJobs(hosts[..i], index, jobs)
      invariant Named(jobOf, jobs, hash)
    {
      var key := hosts[i].key;
      FoundSnoc(hosts, index, jobOf, |jobs|, i);
      if key !in jobOf {
        FoundInRange(hosts[..i], index, jobOf, |jobs|);
        CarryNew(hosts[..i], index, jobs, hash(key.job));
        jobOf := jobOf[key := |jobs|];
        jobs := jobs + [Job(hash(key.job), 0, false)];
      }
      var j := jobOf[key];
      CarrySnoc(hosts, index, jobs, i, j);
      index := index + [j];
      jobs := jobs[j := jobs[j].(
        volumeBps := jobs[j].volumeBps + hosts[i].volumeBps,
        currentlyLopri := jobs[j].currentlyLopri || hosts[i].currentlyLopri)];
    }
    assert hosts[..|hosts|] == hosts;
    FoundIsQuotient(hosts, index, jobOf, |jobs|);
    FoundIsNamed(hosts, index, jobOf, jobs, hash);
  }

  // ---- Lifting a selection ----

  ghost function SelectedHosts(hosts: seq<Host>, sel: seq<bool>): int
    requires |hosts| == |sel|
  {
    if hosts == [] then 0
    else
      var k := |hosts| - 1;
      SelectedHosts(hosts[..k], sel[..k]) + if sel[k] then hosts[k].volumeBps else 0
  }

  /** The selected volume over the first n jobs, job by job from the hosts. */
  ghost function SelectedByJob(hosts: seq<Host>, index: seq<nat>, jobSel: seq<bool>, n: nat): int
    requires |hosts| == |index| && n <= |jobSel|
  {
    if n == 0 then 0
    else SelectedByJob(hosts, index, jobSel, n - 1) + if jobSel[n - 1] then VolumeOf(hosts, index, n - 1) else 0
  }

  ghost function SelectedJobs(jobs: seq<Job>, jobSel: seq<bool>, n: nat): int
    requires n <= |jobs| == |jobSel|
  {
    if n == 0 then 0 else SelectedJobs(jobs, jobSel, n - 1) + if jobSel[n - 1] then jobs[n - 1].volumeBps else 0
  }

  lemma {:induction false} ByJobSnoc(hosts: seq<Host>, index: seq<nat>, jobSel: seq<bool>, n: nat)
    requires hosts != [] && |hosts| == |index| && n <= |jobSel|
    ensures var k := |hosts| - 1;
            SelectedByJob(hosts, index, jobSel, n) == SelectedByJob(hosts[..k], index[..k], jobSel, n) +
            if index[k] < n && jobSel[index[k]] then hosts[k].volumeBps else 0
  {
    if n > 0 {
      ByJobSnoc(hosts, index, jobSel, n - 1);
    }
  }

  lemma {:induction false} ByJobIsByHost(hosts: seq<Host>, index: seq<nat>, jobSel: seq<bool>, sel: seq<bool>)
    requires |hosts| == |index| == |sel|
    requires forall i :: 0 <= i < |index| ==> index[i] < |jobSel| && sel[i] == jobSel[index[i]]
    ensures SelectedByJob(hosts, index, jobSel, |jobSel|) == SelectedHosts(hosts, sel)
  {
    if hosts == [] {
      NothingSelected(index, jobSel, |jobSel|);
    } else {
      var k := |hosts| - 1;
      ByJobSnoc(hosts, index, jobSel, |jobSel|);
      ByJobIsByHost(hosts[..k], index[..k], jobSel, sel[..k]);
    }
  }

  lemma {:induction false} NothingSelected(index: seq<nat>, jobSel: seq<bool>, n: nat)
    requires index == [] && n <= |jobSel|
    ensures SelectedByJob([], index, jobSel, n) == 0
  {
    if n > 0 {
      NothingSelected(index, jobSel, n - 1);
    }
  }

  lemma {:induction false} JobsCarrySelection(hosts: seq<Host>, index: seq<nat>, jobs: seq<Job>, jobSel: seq<bool>, n: nat)
    requires |hosts| == |index| && n <= |jobs| == |jobSel| && CarriesJobs(hosts, index, jobs)
    ensures SelectedJobs(jobs, jobSel, n) == SelectedByJob(hosts, index, jobSel, n)
  {
    if n > 0 {
      JobsCarrySelection(hosts, index, jobs, jobSel, n - 1);
    }
  }

  /** Whatever jobs are selected, their hosts carry the same volume. */
  lemma SelectionKeepsVolume(hosts: seq<Host>, index: seq<nat>, jobs: seq<Job>, jobSel: seq<bool>, sel: seq<bool>)
    requires IsQuotient(hosts, index, |jobs|) && CarriesJobs(hosts, index, jobs) && |jobSel| == |jobs| && |sel| == |hosts|
    requires forall i :: 0 <= i < |index| ==> sel[i] == jobSel[index[i]]
    ensures SelectedHosts(hosts, sel) == SelectedJobs(jobs, jobSel, |jobs|)
  {
    ByJobIsByHost(hosts, index, jobSel, sel);
    JobsCarrySelection(hosts, index, jobs, jobSel, |jobs|);
  }

  /** The lifting loop of PickLOPRIChildren, for whatever selection the implementation made. */
  method LiftSelection(hosts: seq<Host>, index: seq<nat>, jobs: seq<Job>, jobSel: seq<bool>) returns (sel: seq<bool>)
    requires IsQuotient(hosts, index, |jobs|) && CarriesJobs(hosts, index, jobs) && |jobSel| == |jobs|
    ensures |sel| == |hosts|
    ensures forall i, k :: 0 <= i < |hosts| && 0 <= k < |hosts| && hosts[i].key == hosts[k].key ==> sel[i] == sel[k]
    ensures forall i :: 0 <= i < |hosts| ==> sel[i] == jobSel[index[i]]
    ensures SelectedHosts(hosts, sel) == SelectedJobs(jobs, jobSel, |jobs|)
  {
    hide CarriesJobs;
    sel := seq(|hosts|, _ => false);
    for i := 0 to |sel|
      invariant |sel| == |hosts|
      invariant forall k :: 0 <= k < i ==> sel[k] == jobSel[index[k]]
    {
      sel := sel[i := jobSel[index[i]]];
    }
    SelectionKeepsVolume(hosts, index, jobs, jobSel, sel);
  }

  ghost function Trues(n: nat): (s: seq<bool>)
    ensures |s| == n && forall i :: 0 <= i < n ==> s[i]
  {
    seq(n, _ => true)
  }

  /** The jobs together carry the volume of all hosts. */
  lemma JobsCarryAll(hosts: seq<Host>, index: seq<nat>, jobs: seq<Job>)
    requires IsQuotient(hosts, index, |jobs|) && CarriesJobs(hosts, index, jobs)
    ensures SelectedHosts(hosts, Trues(|hosts|)) == SelectedJobs(jobs, Trues(|jobs|), |jobs|)
  {
    SelectionKeepsVolume(hosts, index, jobs, Trues(|jobs|), Trues(|hosts|));
  }
}
