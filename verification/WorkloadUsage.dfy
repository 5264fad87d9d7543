/**
 Usage per Kubernetes workload: pods grouped by owner, their metrics and declared resources summed,
 and a limit or request unknown as soon as one container leaves it unset.

 Quantities are exact here. The report is proved to be the group-by it stands for, sorted and with
 nothing lost, and not to depend on the order in which the pods were listed.
 */
module WorkloadUsage {
  import opened Wrappers
  import opened StringOrder

  datatype Workload = Workload(namespace: string, kind: string, name: string)

  datatype OwnerRef = OwnerRef(kind: string, name: string)

  datatype Container = Container(cpuLimit: Option<real>, cpuRequest: Option<real>, memLimit: Option<int>)

  datatype Pod = Pod(
    namespace: Option<string>, name: string, owners: seq<OwnerRef>, templateHash: string,
    phase: Option<string>, containers: seq<Container>)

  datatype Usage = Usage(cpu: Option<real>, memory: Option<int>)

  datatype Metric = Metric(namespace: Option<string>, name: string, containers: seq<Usage>)

  /** A row while it is being filled in, with the fields found unset. */
  datatype Tally = Tally(
    pods: int, cpuCores: real, memBytes: int,
    cpuLimit: real, cpuRequest: real, memLimit: int,
    cpuLimitUnset: bool, cpuRequestUnset: bool, memLimitUnset: bool)

  datatype Row = Row(
    workload: Workload, pods: int, cpuCores: real, memBytes: int,
    cpuLimit: Option<real>, cpuRequest: Option<real>, memLimit: Option<int>)

  type Metrics = map<(string, string), (real, int)>

  // ---------------------------------------------------------------- pods and metrics

  function OwnerKind(kind: string): Option<string> {
    if kind == "StatefulSet" then Some("statefulset")
    else if kind == "DaemonSet" then Some("daemonset")
    else if kind == "ReplicaSet" then Some("deployment")
    else None
  }

  function RemoveSuffix(name: string, suffix: string): string {
    if |suffix| <= |name| && name[|name| - |suffix|..] == suffix then name[..|name| - |suffix|] else name
  }

  function OwnerName(owner: OwnerRef, templateHash: string): string {
    if owner.kind == "ReplicaSet" && templateHash != "" then RemoveSuffix(owner.name, "-" + templateHash)
        else owner.name
  }

  /** The first owner of a known kind that has a name. */
  function FirstOwner(owners: seq<OwnerRef>, namespace: string, templateHash: string): Option<Workload> {
    if owners == [] then None
    else
      var kind, name := OwnerKind(owners[0].kind), OwnerName(owners[0], templateHash);
      if kind.Some? && name != "" then Some(Workload(namespace, kind.value, name))
      else FirstOwner(owners[1..], namespace, templateHash)
  }

  function NamespaceOf(pod: Pod): string {
    if pod.namespace.GetOr("") != "" then pod.namespace.value else "default"
  }

  function PodWorkload(pod: Pod): Option<Workload> {
    FirstOwner(pod.owners, NamespaceOf(pod), pod.templateHash)
  }

  predicate Usable(owner: OwnerRef, templateHash: string) {
    OwnerKind(owner.kind).Some? && OwnerName(owner, templateHash) != ""
  }

  /** The `k`-th owner decides: it is usable, and none before it is. */
  predicate OwnerDecides(owners: seq<OwnerRef>, templateHash: string, k: int) {
    0 <= k < |owners| && Usable(owners[k], templateHash) && forall j :: 0 <= j < k ==> !Usable(owners[j], templateHash)
  }

  lemma {:induction false} FirstOwnerDecides(owners: seq<OwnerRef>, namespace: string, templateHash: string, k: int)
    requires OwnerDecides(owners, templateHash, k)
    ensures FirstOwner(owners, namespace, templateHash) ==
            Some(Workload(namespace, OwnerKind(owners[k].kind).value, OwnerName(owners[k], templateHash)))
  {
    hide OwnerKind, OwnerName;
    if k > 0 {
      FirstOwnerDecides(owners[1..], namespace, templateHash, k - 1);
    }
  }

  /** Without a usable owner there is no workload: a bare pod, a Job's or a static one. */
  lemma {:induction false} NoOwnerNoWorkload(owners: seq<OwnerRef>, namespace: string, templateHash: string)
    requires forall j :: 0 <= j < |owners| ==> !Usable(owners[j], templateHash)
    ensures FirstOwner(owners, namespace, templateHash) == None
  {
    hide OwnerKind, OwnerName;
    if owners != [] {
      NoOwnerNoWorkload(owners[1..], namespace, templateHash);
    }
  }

  /** The owners that count, what kind of workload each stands for, and when its name is kept as it is. */
  lemma OwnersSay(owner: OwnerRef, templateHash: string)
    ensures OwnerKind(owner.kind) == Some("statefulset") <==> owner.kind == "StatefulSet"
    ensures OwnerKind(owner.kind) == Some("daemonset") <==> owner.kind == "DaemonSet"
    ensures OwnerKind(owner.kind) == Some("deployment") <==> owner.kind == "ReplicaSet"
    ensures OwnerKind(owner.kind) == None <==>
            owner.kind != "StatefulSet" && owner.kind != "DaemonSet" && owner.kind != "ReplicaSet"
    ensures owner.kind != "ReplicaSet" || templateHash == "" ==> OwnerName(owner, templateHash) == owner.name
    ensures (forall base :: owner.name != base + ("-" + templateHash)) ==> OwnerName(owner, templateHash) == owner.name
  {
    var suffix, n := "-" + templateHash, |owner.name|;
    if |suffix| <= n && owner.name[n - |suffix|..] == suffix {
      assert owner.name == owner.name[..n - |suffix|] + ("-" + templateHash);
    }
  }

  /** A pod whose deciding owner is a ReplicaSet belongs to the Deployment the set is named after. */
  lemma {:induction false} ReplicaSetPodBelongsToDeployment(pod: Pod, k: int, deployment: string)
    requires deployment != "" && pod.templateHash != ""
    requires 0 <= k < |pod.owners| && pod.owners[k] == OwnerRef("ReplicaSet", deployment + "-" + pod.templateHash)
    requires forall j :: 0 <= j < k ==> !Usable(pod.owners[j], pod.templateHash)
    ensures var namespace := if pod.namespace == None || pod.namespace == Some("") then "default"
          else pod.namespace.value;
            PodWorkload(pod) == Some(Workload(namespace, "deployment", deployment))
  {
    var suffix := "-" + pod.templateHash;
    var name := pod.owners[k].name;
    assert name == deployment + suffix;
    assert name[|name| - |suffix|..] == suffix && name[..|name| - |suffix|] == deployment;
    FirstOwnerDecides(pod.owners, NamespaceOf(pod), pod.templateHash, k);
  }

  predicate Counted(pod: Pod) {
    PodWorkload(pod).Some? && (pod.phase == None || pod.phase.value == "Running")
  }

  function MetricsKey(namespace: Option<string>, name: string): (string, string) {
    (namespace.GetOr("None"), name)
  }

  function UsageOf(metrics: Metrics, pod: Pod): (real, int) {
    var key := MetricsKey(pod.namespace, pod.name);
    if key in metrics then metrics[key] else (0.0, 0)
  }

  function SumUsage(containers: seq<Usage>): (real, int) {
    if containers == [] then (0.0, 0)
    else
      var sofar, last := SumUsage(containers[..|containers| - 1]), containers[|containers| - 1];
      (sofar.0 + last.cpu.GetOr(0.0), sofar.1 + last.memory.GetOr(0))
  }

  /** Later entries for the same pod replace earlier ones. */
  function MetricsOf(items: seq<Metric>): Metrics {
    if items == [] then map[]
    else
      var last := items[|items| - 1];
      MetricsOf(items[..|items| - 1])[MetricsKey(last.namespace, last.name) := SumUsage(last.containers)]
  }

  predicate LastFor(items: seq<Metric>, key: (string, string), i: int) {
    && 0 <= i < |items| && MetricsKey(items[i].namespace, items[i].name) == key
    && forall j :: i < j < |items| ==> MetricsKey(items[j].namespace, items[j].name) != key
  }

  /** The last entry of a pod is the one that counts, with its own containers only. */
  lemma {:induction false} LastMetricCounts(items: seq<Metric>, key: (string, string)) returns (i: int)
    ensures key in MetricsOf(items) ==> LastFor(items, key, i) && MetricsOf(items)[key] == SumUsage(items[i].containers)
    ensures key !in MetricsOf(items) ==>
              forall j :: 0 <= j < |items| ==> MetricsKey(items[j].namespace, items[j].name) != key
  {
    hide MetricsKey, SumUsage;
    i := |items| - 1;
    if items != [] && MetricsKey(items[i].namespace, items[i].name) != key {
      i := LastMetricCounts(items[..i], key);
    }
  }

  /** Usage adds up over containers; what a container does not report counts as nothing. */
  lemma {:induction false} UsageAdds(a: seq<Usage>, b: seq<Usage>)
    ensures SumUsage(a + b) == (SumUsage(a).0 + SumUsage(b).0, SumUsage(a).1 + SumUsage(b).1)
  {
    if b == [] {
      assert a + b == a;
    } else {
      UsageAdds(a, b[..|b| - 1]);
      assert (a + b)[..|a + b| - 1] == a + b[..|b| - 1];
    }
  }

  lemma UsageOfOne(u: Usage)
    ensures SumUsage([u]) == (if u.cpu.Some? then u.cpu.value else 0.0, if u.memory.Some? then u.memory.value else 0)
  {
    assert [u][..0] == [];
  }

  // ---------------------------------------------------------------- the group-by, as sums

  const ZERO := Tally(0, 0.0, 0, 0.0, 0.0, 0, false, false, false)

  function Plus(a: Tally, b: Tally): Tally {
    Tally(a.pods + b.pods, a.cpuCores + b.cpuCores, a.memBytes + b.memBytes,
          a.cpuLimit + b.cpuLimit, a.cpuRequest + b.cpuRequest, a.memLimit + b.memLimit,
          a.cpuLimitUnset || b.cpuLimitUnset, a.cpuRequestUnset || b.cpuRequestUnset, a.memLimitUnset ||
              b.memLimitUnset)
  }

  function ContainerShare(c: Container): Tally {
    Tally(0, 0.0, 0, c.cpuLimit.GetOr(0.0), c.cpuRequest.GetOr(0.0), c.memLimit.GetOr(0),
          c.cpuLimit == None, c.cpuRequest == None, c.memLimit == None)
  }

  function Declared(containers: seq<Container>): Tally {
    if containers == [] then ZERO
    else Plus(Declared(containers[..|containers| - 1]), ContainerShare(containers[|containers| - 1]))
  }

  /** What one pod adds to its workload. */
  function PodShare(pod: Pod, metrics: Metrics): Tally {
    var usage := UsageOf(metrics, pod);
    Plus(Tally(1, usage.0, usage.1, 0.0, 0.0, 0, false, false, false), Declared(pod.containers))
  }

  function ShareFor(workload: Workload, pod: Pod, metrics: Metrics): Tally {
    if Counted(pod) && PodWorkload(pod).value == workload then PodShare(pod, metrics) else ZERO
  }

  /** The sum over the workload's counted pods. */
  function Total(workload: Workload, pods: seq<Pod>, metrics: Metrics): Tally {
    if pods == [] then ZERO
    else Plus(Total(workload, pods[..|pods| - 1], metrics), ShareFor(workload, pods[|pods| - 1], metrics))
  }

  /** The sum over all counted pods, whatever their workload. */
  function GrandTotal(pods: seq<Pod>, metrics: Metrics): Tally {
    if pods == [] then ZERO
    else
      Plus(GrandTotal(pods[..|pods| - 1], metrics),
           if Counted(pods[|pods| - 1]) then PodShare(pods[|pods| - 1], metrics) else ZERO)
  }

  function RowOf(workload: Workload, t: Tally): Row {
    Row(workload, t.pods, t.cpuCores, t.memBytes,
        if t.cpuLimitUnset then None else Some(t.cpuLimit),
        if t.cpuRequestUnset then None else Some(t.cpuRequest),
        if t.memLimitUnset then None else Some(t.memLimit))
  }

  predicate Owns(workload: Workload, pod: Pod) {
    Counted(pod) && PodWorkload(pod).value == workload
  }

  ghost predicate HasPods(workload: Workload, pods: seq<Pod>) {
    exists i :: 0 <= i < |pods| && Owns(workload, pods[i])
  }

  predicate Before(a: Workload, b: Workload) {
    Less(a.namespace, b.namespace)
    || (a.namespace == b.namespace && (Less(a.kind, b.kind) || (a.kind == b.kind && Less(a.name, b.name))))
  }

  ghost predicate Ascending(workloads: seq<Workload>) {
    forall i, j :: 0 <= i < j < |workloads| ==> Before(workloads[i], workloads[j])
  }

  /** The report: one row per workload with a counted pod, in order, each the sum over its pods. */
  ghost predicate IsReport(rows: seq<Row>, pods: seq<Pod>, metrics: Metrics) {
    && (forall i, j :: 0 <= i < j < |rows| ==> Before(rows[i].workload, rows[j].workload))
    && (forall i :: 0 <= i < |rows| ==>
          HasPods(rows[i].workload, pods) && rows[i] == RowOf(rows[i].workload, Total(rows[i].workload, pods, metrics)))
    && (forall w :: HasPods(w, pods) ==> exists i :: 0 <= i < |rows| && rows[i].workload == w)
  }

  // ---------------------------------------------------------------- the program

  method CollectMetrics(items: seq<Metric>) returns (metrics: Metrics)
    ensures metrics == MetricsOf(items)
    ensures forall key :: key in metrics ==>
              exists i :: LastFor(items, key, i) && metrics[key] == SumUsage(items[i].containers)
  {
    metrics := map[];
    for i := 0 to |items|
      invariant metrics == MetricsOf(items[..i])
    {
      var item := items[i];
      var cpu, mem := 0.0, 0;
      for j := 0 to |item.containers|
        invariant (cpu, mem) == SumUsage(item.containers[..j])
      {
        cpu := cpu + item.containers[j].cpu.GetOr(0.0);
        mem := mem + item.containers[j].memory.GetOr(0);
        assert item.containers[..j + 1][..j] == item.containers[..j];
      }
      assert item.containers[..|item.containers|] == item.containers;
      metrics := metrics[MetricsKey(item.namespace, item.name) := (cpu, mem)];
      assert items[..i + 1][..i] == items[..i];
    }
    assert items[..|items|] == items;
    forall key | key in metrics
      ensures exists i :: LastFor(items, key, i) && metrics[key] == SumUsage(items[i].containers)
    {
      var i := LastMetricCounts(items, key);
    }
  }

  /** One container's declared resources: a value is added, an unset field marked. */
  method AddContainer(tally: Tally, c: Container) returns (r: Tally)
    ensures r == Plus(tally, ContainerShare(c))
  {
    r := tally;
    if c.cpuLimit == None { r := r.(cpuLimitUnset := true); }
        else { r := r.(cpuLimit := r.cpuLimit + c.cpuLimit.value); }
    if c.cpuRequest == None { r := r.(cpuRequestUnset := true); }
        else { r := r.(cpuRequest := r.cpuRequest + c.cpuRequest.value); }
    if c.memLimit == None { r := r.(memLimitUnset := true); }
        else { r := r.(memLimit := r.memLimit + c.memLimit.value); }
  }

  lemma PlusIsMonoid(a: Tally, b: Tally, c: Tally)
    ensures Plus(Plus(a, b), c) == Plus(a, Plus(b, c))
    ensures Plus(a, b) == Plus(b, a)
    ensures Plus(a, ZERO) == a
  {
  }

  /** Adds one pod to its workload's row, container by container. */
  method AddPod(tally: Tally, pod: Pod, metrics: Metrics) returns (r: Tally)
    ensures r == Plus(tally, PodShare(pod, metrics))
  {
    var usage := UsageOf(metrics, pod);
    r := tally.(pods := tally.pods + 1, cpuCores := tally.cpuCores + usage.0, memBytes := tally.memBytes + usage.1);
    ghost var own := Tally(1, usage.0, usage.1, 0.0, 0.0, 0, false, false, false);
    assert r == Plus(tally, own);
    hide Plus, ContainerShare;
    PlusIsMonoid(r, ZERO, ZERO);
    for j := 0 to |pod.containers|
      invariant r == Plus(Plus(tally, own), Declared(pod.containers[..j]))
    {
      PlusIsMonoid(Plus(tally, own), Declared(pod.containers[..j]), ContainerShare(pod.containers[j]));
      r := AddContainer(r, pod.containers[j]);
      assert pod.containers[..j + 1][..j] == pod.containers[..j];
    }
    assert pod.containers[..|pod.containers|] == pod.containers;
    PlusIsMonoid(tally, own, Declared(pod.containers));
  }

  method Accumulate(pods: seq<Pod>, metrics: Metrics) returns (tallies: map<Workload, Tally>)
    ensures forall w :: w in tallies <==> HasPods(w, pods)
    ensures forall w :: w in tallies ==> tallies[w] == Total(w, pods, metrics)
  {
    hide PodShare, Counted, PodWorkload, Plus;
    tallies := map[];
    for i := 0 to |pods|
      invariant forall w :: w in tallies <==> HasPods(w, pods[..i])
      invariant forall w :: w in tallies ==> tallies[w] == Total(w, pods[..i], metrics)
    {
      var pod := pods[i];
      forall w {
        OneMorePod(w, pods, metrics, i);
      }
      var owner := PodWorkload(pod);
      if Counted(pod) {
        assert owner.Some? by { CountedHasOwner(pod); }
        var tally := if owner.value in tallies then tallies[owner.value] else ZERO;
        NoPodsNoTotal(owner.value, pods[..i], metrics);
        tally := AddPod(tally, pod, metrics);
        tallies := tallies[owner.value := tally];
      }
    }
    assert pods[..|pods|] == pods;
  }

  lemma CountedHasOwner(pod: Pod)
    requires Counted(pod)
    ensures PodWorkload(pod).Some?
  {
  }

  lemma {:induction false} OneMorePod(w: Workload, pods: seq<Pod>, metrics: Metrics, i: nat)
    requires i < |pods|
    ensures HasPods(w, pods[..i + 1]) <==> HasPods(w, pods[..i]) || Owns(w, pods[i])
    ensures Total(w, pods[..i + 1], metrics) ==
            if Owns(w, pods[i]) then Plus(Total(w, pods[..i], metrics), PodShare(pods[i], metrics))
                else Total(w, pods[..i], metrics)
  {
    hide PodShare, Counted, PodWorkload, Plus;
    assert pods[..i + 1][..i] == pods[..i];
    PlusIsMonoid(Total(w, pods[..i], metrics), ZERO, ZERO);
    if HasPods(w, pods[..i]) {
      var k :| 0 <= k < i && Owns(w, pods[..i][k]);
      assert Owns(w, pods[..i + 1][k]);
    }
    if Owns(w, pods[i]) {
      assert Owns(w, pods[..i + 1][i]);
    }
  }

  lemma {:induction false} NoPodsNoTotal(w: Workload, pods: seq<Pod>, metrics: Metrics)
    ensures !HasPods(w, pods) ==> Total(w, pods, metrics) == ZERO
  {
    if pods != [] {
      OneMorePod(w, pods, metrics, |pods| - 1);
      assert pods[..|pods|] == pods;
      NoPodsNoTotal(w, pods[..|pods| - 1], metrics);
    }
  }

  /** `sorted` by namespace, kind and name; the keys of a dictionary are distinct. */
  method SortedKeys(tallies: map<Workload, Tally>) returns (order: seq<Workload>)
    ensures Ascending(order) && forall w :: w in order <==> w in tallies
  {
    order := [];
    var rest := tallies.Keys;
    while rest != {}
      invariant rest <= tallies.Keys
      invariant forall w :: w in tallies && w !in rest ==> w in order
      invariant forall i :: 0 <= i < |order| ==> order[i] in tallies && order[i] !in rest
      invariant forall i, w :: 0 <= i < |order| && w in rest ==> Before(order[i], w)
      invariant Ascending(order)
    {
      ghost var _ := FirstOf(rest);
      var w :| w in rest && forall o :: o in rest && o != w ==> Before(w, o);
      order := order + [w];
      rest := rest - {w};
    }
  }

  method WorkloadUsage(pods: seq<Pod>, items: seq<Metric>) returns (rows: seq<Row>)
    ensures IsReport(rows, pods, MetricsOf(items))
    ensures forall i, j :: 0 <= i < j < |rows| ==> Sorted(rows[i].workload, rows[j].workload)
    ensures forall k, w :: 0 <= k < |pods| && IsOwned(pods[k], w) ==>
          exists i :: 0 <= i < |rows| && rows[i].workload == w
  {
    hide MetricsOf, Total, HasPods, Ascending, IsOwned, Sorted;
    var metrics := CollectMetrics(items);
    var tallies := Accumulate(pods, metrics);
    var order := SortedKeys(tallies);
    rows := [];
    for i := 0 to |order|
      invariant |rows| == i
      invariant forall j :: 0 <= j < i ==> rows[j] == RowOf(order[j], Total(order[j], pods, metrics))
    {
      assert order[i] in order;
      rows := rows + [RowOf(order[i], tallies[order[i]])];
    }
    forall i | 0 <= i < |rows| ensures HasPods(rows[i].workload, pods) {
      assert order[i] in order;
    }
    forall w | HasPods(w, pods) ensures exists i :: 0 <= i < |rows| && rows[i].workload == w {
      var i :| 0 <= i < |order| && order[i] == w;
      assert rows[i].workload == w;
    }
    InOrderAndComplete(rows, pods, metrics);
  }

  lemma InOrderAndComplete(rows: seq<Row>, pods: seq<Pod>, metrics: Metrics)
    requires IsReport(rows, pods, metrics)
    ensures forall i, j :: 0 <= i < j < |rows| ==> Sorted(rows[i].workload, rows[j].workload)
    ensures forall k, w :: 0 <= k < |pods| && IsOwned(pods[k], w) ==>
          exists i :: 0 <= i < |rows| && rows[i].workload == w
  {
    hide Total, HasPods, IsOwned, RowOf, Before, Sorted;
    forall i, j | 0 <= i < j < |rows| ensures Sorted(rows[i].workload, rows[j].workload) {
      SortedIffBefore(rows[i].workload, rows[j].workload);
    }
    forall k, w | 0 <= k < |pods| && IsOwned(pods[k], w) ensures exists i :: 0 <= i < |rows| && rows[i].workload == w {
      OwnedHasPods(w, pods, k);
    }
  }

  /** By namespace, then kind, then name. */
  ghost predicate Sorted(a: Workload, b: Workload) {
    if a.namespace != b.namespace then Less(a.namespace, b.namespace)
    else if a.kind != b.kind then Less(a.kind, b.kind)
    else Less(a.name, b.name)
  }

  lemma SortedIffBefore(a: Workload, b: Workload)
    ensures Before(a, b) <==> Sorted(a, b)
  {
    LessIsStrictTotal(a.namespace, b.namespace, a.namespace);
    LessIsStrictTotal(a.kind, b.kind, a.kind);
  }

  lemma OwnedHasPods(w: Workload, pods: seq<Pod>, k: nat)
    requires k < |pods| && IsOwned(pods[k], w)
    ensures HasPods(w, pods)
  {
    hide PodWorkload;
    assert Owns(w, pods[k]);
  }

  // ---------------------------------------------------------------- order

  lemma {:induction false} BeforeIsStrictTotal(a: Workload, b: Workload, c: Workload)
    ensures !Before(a, a)
    ensures Before(a, b) && Before(b, c) ==> Before(a, c)
    ensures a == b || Before(a, b) || Before(b, a)
  {
    LessIsStrictTotal(a.namespace, b.namespace, c.namespace);
    LessIsStrictTotal(a.kind, b.kind, c.kind);
    LessIsStrictTotal(a.name, b.name, c.name);
  }

  lemma {:induction false} FirstOf(ws: set<Workload>) returns (first: Workload)
    requires ws != {}
    ensures first in ws && forall o :: o in ws && o != first ==> Before(first, o)
  {
    first :| first in ws;
    if ws != {first} {
      var x := first;
      var y := FirstOf(ws - {x});
      BeforeIsStrictTotal(x, y, x);
      if Before(x, y) {
        forall o | o in ws && o != x ensures Before(x, o) { BeforeIsStrictTotal(x, y, o); }
      } else {
        first := y;
      }
    }
  }

  // ---------------------------------------------------------------- what the report keeps

  /** Taking one pod out of the list takes its share out of the sum. */
  lemma {:induction false} TotalWithout(w: Workload, pods: seq<Pod>, metrics: Metrics, k: nat)
    requires k < |pods|
    ensures Total(w, pods, metrics) == Plus(Total(w, pods[..k] + pods[k + 1..], metrics), ShareFor(w, pods[k], metrics))
  {
    hide Plus, ShareFor;
    var init, last, rest := pods[..|pods| - 1], pods[|pods| - 1], pods[..k] + pods[k + 1..];
    if k == |pods| - 1 {
      assert rest == init;
    } else {
      TotalWithout(w, init, metrics, k);
      var inner := init[..k] + init[k + 1..];
      assert rest == inner + [last];
      assert rest[..|rest| - 1] == inner;
      assert init[k] == pods[k];
      var a, b, c := Total(w, inner, metrics), ShareFor(w, pods[k], metrics), ShareFor(w, last, metrics);
      PlusIsMonoid(a, b, c);
      PlusIsMonoid(a, c, b);
      PlusIsMonoid(b, c, ZERO);
    }
  }

  lemma ContentsWithout(pods: seq<Pod>, k: nat)
    requires k < |pods|
    ensures multiset(pods[..k] + pods[k + 1..]) == multiset(pods) - multiset{pods[k]}
  {
    assert pods == pods[..k] + [pods[k]] + pods[k + 1..];
  }

  lemma {:induction false} TotalOfMultiset(w: Workload, pods: seq<Pod>, shuffled: seq<Pod>, metrics: Metrics)
    requires multiset(pods) == multiset(shuffled)
    ensures Total(w, pods, metrics) == Total(w, shuffled, metrics)
  {
    hide Plus, ShareFor;
    assert |multiset(pods)| == |pods| && |multiset(shuffled)| == |shuffled|;
    if pods != [] {
      var init, last := pods[..|pods| - 1], pods[|pods| - 1];
      assert pods == init + [last];
      assert last in multiset(shuffled);
      var k :| 0 <= k < |shuffled| && shuffled[k] == last;
      TotalWithout(w, shuffled, metrics, k);
      var rest := shuffled[..k] + shuffled[k + 1..];
      assert multiset(init) == multiset(pods) - multiset{last};
      ContentsWithout(shuffled, k);
      TotalOfMultiset(w, init, rest, metrics);
    }
  }

  lemma {:induction false} PodsOfMultiset(w: Workload, pods: seq<Pod>, shuffled: seq<Pod>)
    requires multiset(pods) == multiset(shuffled)
    ensures HasPods(w, pods) ==> HasPods(w, shuffled)
  {
    if HasPods(w, pods) {
      var i :| 0 <= i < |pods| && Owns(w, pods[i]);
      assert pods[i] in multiset(shuffled);
      var j :| 0 <= j < |shuffled| && shuffled[j] == pods[i];
    }
  }

  /** Two strictly ascending lists with the same elements are the same list. */
  lemma {:induction false} AscendingUnique(a: seq<Workload>, b: seq<Workload>)
    requires Ascending(a) && Ascending(b) && forall w :: w in a <==> w in b
    ensures a == b
  {
    HeadIsIn(a);
    HeadIsIn(b);
    if a != [] {
      assert a[0] in b;
      assert b[0] in a;
      var i :| 0 <= i < |b| && b[i] == a[0];
      var j :| 0 <= j < |a| && a[j] == b[0];
      BeforeIsStrictTotal(a[0], b[0], a[0]);
      var restA, restB := a[1..], b[1..];
      forall w ensures w in restA <==> w in restB {
        TailHas(a, w);
        TailHas(b, w);
      }
      AscendingUnique(restA, restB);
      assert a == [a[0]] + restA && b == [b[0]] + restB;
    }
  }

  lemma HeadIsIn(s: seq<Workload>)
    ensures s == [] || s[0] in s
  {
  }

  lemma TailHas(a: seq<Workload>, w: Workload)
    requires a != [] && Ascending(a)
    ensures w in a[1..] <==> w in a && w != a[0]
  {
    BeforeIsStrictTotal(a[0], a[0], a[0]);
    if w in a && w != a[0] {
      var i :| 0 <= i < |a| && a[i] == w;
      assert a[1..][i - 1] == w;
    }
  }

  function Names(rows: seq<Row>): seq<Workload> {
    seq(|rows|, i requires 0 <= i < |rows| => rows[i].workload)
  }

  /** The report does not depend on the order in which the pods were listed. */
  lemma {:induction false} PodOrderIrrelevant(rows: seq<Row>, pods: seq<Pod>, other: seq<Row>, shuffled: seq<Pod>,
      metrics: Metrics)
    requires multiset(pods) == multiset(shuffled)
    requires IsReport(rows, pods, metrics) && IsReport(other, shuffled, metrics)
    ensures rows == other
  {
    hide HasPods, RowOf, Before;
    var a, b := Names(rows), Names(other);
    forall w ensures w in a <==> w in b {
      PodsOfMultiset(w, pods, shuffled);
      PodsOfMultiset(w, shuffled, pods);
      NamesAreWorkloads(rows, pods, metrics, w);
      NamesAreWorkloads(other, shuffled, metrics, w);
    }
    AscendingUnique(a, b);
    assert |rows| == |a| == |b| == |other|;
    forall i | 0 <= i < |rows| ensures rows[i] == other[i] {
      assert a[i] == b[i];
      TotalOfMultiset(a[i], pods, shuffled, metrics);
    }
  }

  lemma NamesAreWorkloads(rows: seq<Row>, pods: seq<Pod>, metrics: Metrics, w: Workload)
    requires IsReport(rows, pods, metrics)
    ensures w in Names(rows) <==> HasPods(w, pods)
  {
    if HasPods(w, pods) {
      var i :| 0 <= i < |rows| && rows[i].workload == w;
      assert Names(rows)[i] == w;
    }
  }

  datatype Field = CpuLimit | CpuRequest | MemLimit

  predicate Unset(t: Tally, field: Field) {
    match field
    case CpuLimit => t.cpuLimitUnset
    case CpuRequest => t.cpuRequestUnset
    case MemLimit => t.memLimitUnset
  }

  function SumOver(workloads: seq<Workload>, pods: seq<Pod>, metrics: Metrics): Tally {
    if workloads == [] then ZERO
    else Plus(SumOver(workloads[1..], pods, metrics), Total(workloads[0], pods, metrics))
  }

  lemma {:induction false} SumOverOneMore(workloads: seq<Workload>, pods: seq<Pod>, metrics: Metrics, i: nat)
    requires i < |pods| && Ascending(workloads)
    ensures SumOver(workloads, pods[..i + 1], metrics) ==
            if Counted(pods[i]) && PodWorkload(pods[i]).value in workloads
            then Plus(SumOver(workloads, pods[..i], metrics), PodShare(pods[i], metrics))
            else SumOver(workloads, pods[..i], metrics)
  {
    hide Plus, PodShare, PodWorkload, Before;
    if workloads != [] {
      var w, tail := workloads[0], workloads[1..];
      SumOverOneMore(tail, pods, metrics, i);
      OneMorePod(w, pods, metrics, i);
      forall x { TailHas(workloads, x); }
      var a, b, c := SumOver(tail, pods[..i], metrics), Total(w, pods[..i], metrics), PodShare(pods[i], metrics);
      PlusIsMonoid(a, b, c);
      PlusIsMonoid(a, c, b);
      PlusIsMonoid(b, c, ZERO);
    }
  }

  /** Nothing is lost and nothing counted twice: over all rows, every field sums to that of all counted pods. */
  lemma {:induction false} NothingIsLost(workloads: seq<Workload>, pods: seq<Pod>, metrics: Metrics)
    requires Ascending(workloads) && forall w :: HasPods(w, pods) ==> w in workloads
    ensures SumOver(workloads, pods, metrics) == GrandTotal(pods, metrics)
  {
    hide Plus, PodShare, PodWorkload, Before;
    if pods == [] {
      NothingOver(workloads, metrics);
    } else {
      var init, last := pods[..|pods| - 1], |pods| - 1;
      assert pods[..last + 1] == pods;
      forall w | HasPods(w, init) ensures w in workloads {
        OneMorePod(w, pods, metrics, last);
      }
      NothingIsLost(workloads, init, metrics);
      SumOverOneMore(workloads, pods, metrics, last);
      PlusIsMonoid(GrandTotal(init, metrics), ZERO, ZERO);
      if Counted(pods[last]) {
        assert Owns(PodWorkload(pods[last]).value, pods[last]);
        OneMorePod(PodWorkload(pods[last]).value, pods, metrics, last);
      }
    }
  }

  lemma {:induction false} NothingOver(workloads: seq<Workload>, metrics: Metrics)
    ensures SumOver(workloads, [], metrics) == ZERO
  {
    if workloads != [] {
      NothingOver(workloads[1..], metrics);
    }
  }

  // ---------------------------------------------------------------- what a row shows

  /** The pod is running, or says nothing about its phase, and belongs to the workload. */
  predicate IsOwned(pod: Pod, w: Workload) {
    (pod.phase == None || pod.phase == Some("Running")) && PodWorkload(pod) == Some(w)
  }

  function OwnedPods(w: Workload, pods: seq<Pod>): seq<Pod> {
    if pods == [] then []
    else OwnedPods(w, pods[..|pods| - 1]) + if IsOwned(pods[|pods| - 1], w) then [pods[|pods| - 1]] else []
  }

  function ContainersOf(pods: seq<Pod>): seq<Container> {
    if pods == [] then [] else ContainersOf(pods[..|pods| - 1]) + pods[|pods| - 1].containers
  }

  /** CPU and memory used by the pods, those without a metrics entry using nothing. */
  function UsedBy(pods: seq<Pod>, metrics: Metrics): (real, int) {
    if pods == [] then (0.0, 0)
    else
      var sofar, pod := UsedBy(pods[..|pods| - 1], metrics), pods[|pods| - 1];
      var key := (if pod.namespace.Some? then pod.namespace.value else "None", pod.name);
      if key in metrics then (sofar.0 + metrics[key].0, sofar.1 + metrics[key].1) else sofar
  }

  function Said(c: Container, field: Field): Option<real> {
    match field
    case CpuLimit => c.cpuLimit
    case CpuRequest => c.cpuRequest
    case MemLimit => if c.memLimit.Some? then Some(c.memLimit.value as real) else None
  }

  function Shown(row: Row, field: Field): Option<real> {
    match field
    case CpuLimit => row.cpuLimit
    case CpuRequest => row.cpuRequest
    case MemLimit => if row.memLimit.Some? then Some(row.memLimit.value as real) else None
  }

  function SumSaid(containers: seq<Container>, field: Field): real {
    if containers == [] then 0.0
    else SumSaid(containers[..|containers| - 1], field) + Said(containers[|containers| - 1], field).GetOr(0.0)
  }

  ghost predicate SomeUnsaid(containers: seq<Container>, field: Field) {
    exists j :: 0 <= j < |containers| && Said(containers[j], field) == None
  }

  function Summed(t: Tally, field: Field): real {
    match field
    case CpuLimit => t.cpuLimit
    case CpuRequest => t.cpuRequest
    case MemLimit => t.memLimit as real
  }

  lemma {:induction false} SaidAppend(a: seq<Container>, b: seq<Container>, field: Field)
    ensures SumSaid(a + b, field) == SumSaid(a, field) + SumSaid(b, field)
    ensures SomeUnsaid(a + b, field) <==> SomeUnsaid(a, field) || SomeUnsaid(b, field)
  {
    hide Said;
    if b == [] {
      assert a + b == a;
    } else {
      var n := |b| - 1;
      SaidAppend(a, b[..n], field);
      assert (a + b)[..|a + b| - 1] == a + b[..n];
      OneMoreSaid(a + b, field);
      OneMoreSaid(b, field);
    }
  }

  lemma OneMoreSaid(cs: seq<Container>, field: Field)
    requires cs != []
    ensures SomeUnsaid(cs, field) <==> SomeUnsaid(cs[..|cs| - 1], field) || Said(cs[|cs| - 1], field) == None
  {
    hide Said;
    var init := cs[..|cs| - 1];
    if SomeUnsaid(init, field) {
      var j :| 0 <= j < |init| && Said(init[j], field) == None;
      assert Said(cs[j], field) == None;
    }
    if SomeUnsaid(cs, field) {
      var j :| 0 <= j < |cs| && Said(cs[j], field) == None;
      assert j == |init| || Said(init[j], field) == None;
    }
  }

  lemma {:induction false} DeclaredSays(cs: seq<Container>, field: Field)
    ensures Summed(Declared(cs), field) == SumSaid(cs, field)
    ensures Unset(Declared(cs), field) <==> SomeUnsaid(cs, field)
  {
    if cs != [] {
      DeclaredSays(cs[..|cs| - 1], field);
      OneMoreSaid(cs, field);
    }
  }

  lemma PlusSays(a: Tally, b: Tally, field: Field)
    ensures var t := Plus(a, b);
            && t.pods == a.pods + b.pods && t.cpuCores == a.cpuCores + b.cpuCores &&
                t.memBytes == a.memBytes + b.memBytes
            && Summed(t, field) == Summed(a, field) + Summed(b, field) &&
                (Unset(t, field) <==> Unset(a, field) || Unset(b, field))
    ensures Plus(a, ZERO) == a
  {
  }

  lemma {:induction false} ShareSays(pod: Pod, metrics: Metrics, field: Field)
    ensures var t := PodShare(pod, metrics);
            && t.pods == 1 && (t.cpuCores, t.memBytes) == UsageOf(metrics, pod)
            && Summed(t, field) == SumSaid(pod.containers, field)
            && (Unset(t, field) <==> SomeUnsaid(pod.containers, field))
  {
    hide Declared, SumSaid, SomeUnsaid;
    DeclaredSays(pod.containers, field);
    NothingElseDeclared(pod.containers);
  }

  lemma OneMoreUsed(pods: seq<Pod>, pod: Pod, metrics: Metrics)
    ensures UsedBy(pods + [pod], metrics) ==
            (UsedBy(pods, metrics).0 + UsageOf(metrics, pod).0, UsedBy(pods, metrics).1 + UsageOf(metrics, pod).1)
    ensures ContainersOf(pods + [pod]) == ContainersOf(pods) + pod.containers
  {
    assert (pods + [pod])[..|pods|] == pods;
  }

  lemma {:induction false} TotalSays(w: Workload, pods: seq<Pod>, metrics: Metrics, field: Field)
    ensures var t, owned := Total(w, pods, metrics), OwnedPods(w, pods);
            && t.pods == |owned| && (t.cpuCores, t.memBytes) == UsedBy(owned, metrics)
            && Summed(t, field) == SumSaid(ContainersOf(owned), field)
            && (Unset(t, field) <==> SomeUnsaid(ContainersOf(owned), field))
  {
    hide PodWorkload, SomeUnsaid, SumSaid, Plus, PodShare, Summed, Unset, UsedBy, ContainersOf, UsageOf;
    if pods == [] {
      NothingSaid(metrics, field);
    } else {
      var n := |pods| - 1;
      var last, before := pods[n], OwnedPods(w, pods[..n]);
      TotalSays(w, pods[..n], metrics, field);
      PlusSays(Total(w, pods[..n], metrics), ShareFor(w, last, metrics), field);
      if IsOwned(last, w) {
        ShareSays(last, metrics, field);
        OneMoreUsed(before, last, metrics);
        SaidAppend(ContainersOf(before), last.containers, field);
      } else {
        assert before + [] == before;
      }
    }
  }

  lemma NothingSaid(metrics: Metrics, field: Field)
    ensures UsedBy([], metrics) == (0.0, 0) && ContainersOf([]) == []
    ensures Summed(ZERO, field) == SumSaid([], field) && !Unset(ZERO, field) && !SomeUnsaid([], field)
  {
  }

  lemma {:induction false} NothingElseDeclared(cs: seq<Container>)
    ensures Declared(cs).pods == 0 && Declared(cs).cpuCores == 0.0 && Declared(cs).memBytes == 0
  {
    if cs != [] {
      NothingElseDeclared(cs[..|cs| - 1]);
    }
  }

  /**
   What the row of a workload shows: how many running pods it owns, what they use, and of each declared
   resource the sum over their containers, or nothing as soon as one of the containers does not say.
   */
  lemma {:induction false} RowsShow(rows: seq<Row>, pods: seq<Pod>, metrics: Metrics, i: nat, field: Field)
    requires IsReport(rows, pods, metrics) && i < |rows|
    ensures var owned := OwnedPods(rows[i].workload, pods);
            var containers := ContainersOf(owned);
            && owned != [] && rows[i].pods == |owned| && (rows[i].cpuCores, rows[i].memBytes) == UsedBy(owned, metrics)
            && Shown(rows[i], field) == if SomeUnsaid(containers, field) then None else Some(SumSaid(containers, field))
  {
    hide PodWorkload, Said, SomeUnsaid, SumSaid, Total, ContainersOf;
    TotalSays(rows[i].workload, pods, metrics, field);
    SomePodIsOwned(rows[i].workload, pods);
  }

  predicate LeavesUnset(pod: Pod, field: Field) {
    exists j :: 0 <= j < |pod.containers| && Said(pod.containers[j], field) == None
  }

  /**
   A limit or request is shown as unknown exactly when some container of some running pod of the
   workload leaves it unset.
   */
  lemma {:induction false} UnknownIffUnset(rows: seq<Row>, pods: seq<Pod>, metrics: Metrics, i: nat, field: Field)
    requires IsReport(rows, pods, metrics) && i < |rows|
    ensures Shown(rows[i], field) == None <==>
            exists k :: 0 <= k < |pods| && IsOwned(pods[k], rows[i].workload) && LeavesUnset(pods[k], field)
  {
    hide Shown, OwnedPods, ContainersOf, SomeUnsaid;
    RowsShow(rows, pods, metrics, i, field);
    UnsaidBySome(rows[i].workload, pods, field);
  }

  lemma {:induction false} UnsaidBySome(w: Workload, pods: seq<Pod>, field: Field)
    ensures SomeUnsaid(ContainersOf(OwnedPods(w, pods)), field) <==>
            exists k :: 0 <= k < |pods| && IsOwned(pods[k], w) && LeavesUnset(pods[k], field)
  {
    hide IsOwned, Said, SomeUnsaid, LeavesUnset;
    if pods == [] {
      NothingSaid(map[], field);
    } else {
      var n := |pods| - 1;
      var before, last := OwnedPods(w, pods[..n]), pods[n];
      UnsaidBySome(w, pods[..n], field);
      assert forall k :: 0 <= k < n ==> pods[..n][k] == pods[k];
      if IsOwned(last, w) {
        OneMoreUsed(before, last, map[]);
        SaidAppend(ContainersOf(before), last.containers, field);
        UnsetIsUnsaid(last, field);
      } else {
        assert before + [] == before;
      }
    }
  }

  lemma UnsetIsUnsaid(pod: Pod, field: Field)
    ensures LeavesUnset(pod, field) <==> SomeUnsaid(pod.containers, field)
  {
  }

  lemma {:induction false} SomePodIsOwned(w: Workload, pods: seq<Pod>)
    ensures HasPods(w, pods) <==> OwnedPods(w, pods) != []
  {
    hide PodWorkload;
    if pods != [] {
      SomePodIsOwned(w, pods[..|pods| - 1]);
      assert pods[..|pods| - 1 + 1] == pods;
      OneMoreOwned(w, pods);
    }
  }

  lemma OneMoreOwned(w: Workload, pods: seq<Pod>)
    requires pods != []
    ensures HasPods(w, pods) <==> HasPods(w, pods[..|pods| - 1]) || IsOwned(pods[|pods| - 1], w)
  {
    hide PodWorkload;
    var init := pods[..|pods| - 1];
    if HasPods(w, init) {
      var j :| 0 <= j < |init| && Owns(w, init[j]);
      assert Owns(w, pods[j]);
    }
    if HasPods(w, pods) {
      var j :| 0 <= j < |pods| && Owns(w, pods[j]);
      assert j == |init| || Owns(w, init[j]);
    }
    assert Owns(w, pods[|init|]) <==> IsOwned(pods[|init|], w);
  }

  // ---------------------------------------------------------------- nothing is lost

  /** Pods, CPU and memory added up over the rows of a report. */
  function RowSums(rows: seq<Row>): (int, real, int) {
    if rows == [] then (0, 0.0, 0)
    else
      var rest := RowSums(rows[1..]);
      (rest.0 + rows[0].pods, rest.1 + rows[0].cpuCores, rest.2 + rows[0].memBytes)
  }

  lemma {:induction false} RowsSumTotals(rows: seq<Row>, pods: seq<Pod>, metrics: Metrics)
    requires forall i :: 0 <= i < |rows| ==> rows[i] == RowOf(rows[i].workload, Total(rows[i].workload, pods, metrics))
    ensures var t := SumOver(Names(rows), pods, metrics); RowSums(rows) == (t.pods, t.cpuCores, t.memBytes)
  {
    hide Total;
    if rows != [] {
      RowsSumTotals(rows[1..], pods, metrics);
      assert Names(rows)[1..] == Names(rows[1..]);
      assert Names(rows)[0] == rows[0].workload;
    }
  }

  /** The rows of a report account for every counted pod, its CPU and its memory, once. */
  lemma {:induction false} ReportConserves(rows: seq<Row>, pods: seq<Pod>, metrics: Metrics)
    requires IsReport(rows, pods, metrics)
    ensures var t := GrandTotal(pods, metrics); RowSums(rows) == (t.pods, t.cpuCores, t.memBytes)
  {
    hide Total, RowOf, Before, HasPods, SumOver, GrandTotal;
    RowsSumTotals(rows, pods, metrics);
    forall w | HasPods(w, pods) ensures w in Names(rows) {
      NamesAreWorkloads(rows, pods, metrics, w);
    }
    NothingIsLost(Names(rows), pods, metrics);
  }
}
