/** The accounting records the cluster commands handle, the two in-memory
    mirrors of them (sacctmgr_cluster_list, sacctmgr_association_list), the
    searches sacctmgr runs over those mirrors, and the pairing of every
    cluster with its root association. */
module Records {
  import opened Common

  const SlurmSuccess: int := 0
  const SlurmError: int := -1

  /** "(uint32_t)-1" read back through "(int)": a limit that was not given. */
  const Unset: int := -1

  /** The five limits a cluster record carries as defaults. */
  datatype Field = FairShare | MaxJobs | MaxNodesPerJob | MaxWallDurationPerJob | MaxCpuSecsPerJob

  datatype Limits = Limits(fairshare: int, maxJobs: int, maxNodesPerJob: int,
                           maxWallDurationPerJob: int, maxCpuSecsPerJob: int)
  {
    function Get(f: Field): int {
      match f
      case FairShare => fairshare
      case MaxJobs => maxJobs
      case MaxNodesPerJob => maxNodesPerJob
      case MaxWallDurationPerJob => maxWallDurationPerJob
      case MaxCpuSecsPerJob => maxCpuSecsPerJob
    }

    /** The record with field f assigned v and every other field kept. */
    function With(f: Field, v: int): (r: Limits)
      ensures r.Get(f) == v
      ensures forall g :: g != f ==> r.Get(g) == Get(g)
    {
      match f
      case FairShare => this.(fairshare := v)
      case MaxJobs => this.(maxJobs := v)
      case MaxNodesPerJob => this.(maxNodesPerJob := v)
      case MaxWallDurationPerJob => this.(maxWallDurationPerJob := v)
      case MaxCpuSecsPerJob => this.(maxCpuSecsPerJob := v)
    }
  }

  /** The defaults sacctmgr_add_cluster starts from (every limit "-1"). */
  const AllUnset := Limits(Unset, Unset, Unset, Unset, Unset)

  /** The xmalloc-zeroed record sacctmgr_modify_cluster starts from. */
  const AllZero := Limits(0, 0, 0, 0, 0)

  /** acct_cluster_rec_t: a name and its default limits. */
  datatype Cluster = Cluster(name: string, limits: Limits)

  /** acct_association_rec_t, restricted to what the cluster commands fill in. */
  datatype Assoc = Assoc(acct: string, cluster: string, limits: Limits)

  /** One call into the storage plugin (acct_storage_g_*), as the log records it. */
  datatype Call =
    | AddClusters(batch: seq<Cluster>)
    | GetClusters(filter: seq<string>)
    | ModifyClusters(filter: seq<string>, patch: Limits)
    | RemoveClusters(filter: seq<string>)
    | Commit(persist: bool)

  function Names(cs: seq<Cluster>): seq<string> {
    seq(|cs|, k requires 0 <= k < |cs| => cs[k].name)
  }

  function RemoveAt<T>(s: seq<T>, k: nat): seq<T>
    requires k < |s|
  {
    s[..k] + s[k + 1..]
  }

  /** sacctmgr_find_cluster (assumed): the first cluster of the mirror with
      exactly that name. */
  function FindCluster(cs: seq<Cluster>, name: string): (r: Option<nat>)
    ensures r.None? <==> forall k :: 0 <= k < |cs| ==> cs[k].name != name
    ensures r.Some? ==> r.value < |cs| && cs[r.value].name == name
    ensures r.Some? ==> forall j :: 0 <= j < r.value ==> cs[j].name != name
  {
    if |cs| == 0 then None
    else if cs[0].name == name then Some(0)
    else
      match FindCluster(cs[1..], name)
      case None => None
      case Some(k) => Some(k + 1)
  }

  predicate IsRootOf(a: Assoc, name: string) {
    a.acct == "root" && a.cluster == name
  }

  /** sacctmgr_find_root_assoc (assumed): the first association of the mirror
      with account "root" for that cluster. */
  function FindRootAssoc(assocs: seq<Assoc>, name: string): (r: Option<nat>)
    ensures r.None? <==> forall k :: 0 <= k < |assocs| ==> !IsRootOf(assocs[k], name)
    ensures r.Some? ==> r.value < |assocs| && IsRootOf(assocs[r.value], name)
    ensures r.Some? ==> forall j :: 0 <= j < r.value ==> !IsRootOf(assocs[j], name)
  {
    if |assocs| == 0 then None
    else if IsRootOf(assocs[0], name) then Some(0)
    else
      match FindRootAssoc(assocs[1..], name)
      case None => None
      case Some(k) => Some(k + 1)
  }

  /** One turn of _remove_existing_clusters on the cluster mirror. */
  function RemoveNamed(cs: seq<Cluster>, name: string): seq<Cluster> {
    match FindCluster(cs, name)
    case None => cs
    case Some(k) => RemoveAt(cs, k)
  }

  /** One turn of _remove_existing_clusters on the association mirror. */
  function RemoveRootOf(assocs: seq<Assoc>, name: string): seq<Assoc> {
    match FindRootAssoc(assocs, name)
    case None => assocs
    case Some(k) => RemoveAt(assocs, k)
  }

  /** The cluster mirror after removing, in turn, the cluster of each name. */
  function RemoveEach(cs: seq<Cluster>, names: seq<string>): seq<Cluster> {
    if names == [] then cs
    else RemoveNamed(RemoveEach(cs, names[..|names| - 1]), names[|names| - 1])
  }

  /** The association mirror after removing, in turn, the root association of each name. */
  function RemoveRoots(assocs: seq<Assoc>, names: seq<string>): seq<Assoc> {
    if names == [] then assocs
    else RemoveRootOf(RemoveRoots(assocs, names[..|names| - 1]), names[|names| - 1])
  }

  /** Every lookup _remove_existing_clusters makes finds a cluster: the code
      dereferences the result of sacctmgr_find_cluster without a check. */
  ghost predicate AllFound(cs: seq<Cluster>, names: seq<string>) {
    names == [] ||
    (AllFound(cs, names[..|names| - 1]) &&
     FindCluster(RemoveEach(cs, names[..|names| - 1]), names[|names| - 1]).Some?)
  }

  /** The records sacctmgr_add_cluster stages: one per name, in list order,
      for every name the cluster mirror does not hold, with the shared limits. */
  function Staged(names: seq<string>, l: Limits, cs: seq<Cluster>): seq<Cluster> {
    if names == [] then []
    else
      var last := names[|names| - 1];
      Staged(names[..|names| - 1], l, cs) +
      (if FindCluster(cs, last).None? then [Cluster(last, l)] else [])
  }

  /** The root association sacctmgr_add_cluster creates for a committed cluster. */
  function RootAssoc(c: Cluster): Assoc {
    Assoc("root", c.name, c.limits)
  }

  function RootAssocs(cs: seq<Cluster>): seq<Assoc> {
    seq(|cs|, k requires 0 <= k < |cs| => RootAssoc(cs[k]))
  }

  /** The cluster names of the root associations, in mirror order. */
  function RootNames(assocs: seq<Assoc>): seq<string> {
    if assocs == [] then []
    else
      RootNames(assocs[..|assocs| - 1]) +
      (if assocs[|assocs| - 1].acct == "root" then [assocs[|assocs| - 1].cluster] else [])
  }

  /** Cluster names are unique and each cluster has exactly one root
      association, and every root association has its cluster. */
  ghost predicate Paired(cs: seq<Cluster>, assocs: seq<Assoc>) {
    NoDuplicates(Names(cs)) && multiset(Names(cs)) == multiset(RootNames(assocs))
  }

  // ---------------------------------------------------------------------------
  // Lemmas about the mirrors

  lemma NamesRemoveAt(cs: seq<Cluster>, k: nat)
    requires k < |cs|
    ensures multiset(Names(RemoveAt(cs, k))) == multiset(Names(cs)) - multiset{cs[k].name}
  {
    var ns := Names(cs);
    assert Names(RemoveAt(cs, k)) == ns[..k] + ns[k + 1..];
    assert ns == ns[..k] + [cs[k].name] + ns[k + 1..];
  }

  lemma NamesAppend(a: seq<Cluster>, b: seq<Cluster>)
    ensures Names(a + b) == Names(a) + Names(b)
  {
  }

  lemma {:induction false} RootNamesAppend(a: seq<Assoc>, b: seq<Assoc>)
    ensures RootNames(a + b) == RootNames(a) + RootNames(b)
  {
    if b == [] {
      assert a + b == a;
    } else {
      assert (a + b)[..|a + b| - 1] == a + b[..|b| - 1];
      RootNamesAppend(a, b[..|b| - 1]);
    }
  }

  lemma {:induction false} RootNamesMembers(assocs: seq<Assoc>, x: string)
    ensures x in RootNames(assocs) <==> exists k :: 0 <= k < |assocs| && IsRootOf(assocs[k], x)
  {
    if assocs != [] {
      var init := assocs[..|assocs| - 1];
      RootNamesMembers(init, x);
      if x in RootNames(init) {
        var k :| 0 <= k < |init| && IsRootOf(init[k], x);
        assert IsRootOf(assocs[k], x);
      }
      if exists k :: 0 <= k < |assocs| && IsRootOf(assocs[k], x) {
        var k :| 0 <= k < |assocs| && IsRootOf(assocs[k], x);
        if k < |init| { assert IsRootOf(init[k], x); }
      }
    }
  }

  lemma RootNamesRemoveAt(assocs: seq<Assoc>, k: nat, name: string)
    requires k < |assocs| && IsRootOf(assocs[k], name)
    ensures multiset(RootNames(RemoveAt(assocs, k))) == multiset(RootNames(assocs)) - multiset{name}
  {
    assert assocs == assocs[..k] + [assocs[k]] + assocs[k + 1..];
    RootNamesAppend(assocs[..k] + [assocs[k]], assocs[k + 1..]);
    RootNamesAppend(assocs[..k], [assocs[k]]);
    RootNamesAppend(assocs[..k], assocs[k + 1..]);
    assert RootNames([assocs[k]]) == [name] by {
      assert [assocs[k]][..0] == [];
    }
  }

  /** One step of the cascade keeps each cluster paired with its root association. */
  lemma RemoveStepKeepsPaired(cs: seq<Cluster>, assocs: seq<Assoc>, name: string)
    requires Paired(cs, assocs) && FindCluster(cs, name).Some?
    ensures Paired(RemoveNamed(cs, name), RemoveRootOf(assocs, name))
  {
    var k := FindCluster(cs, name).value;
    NamesRemoveAt(cs, k);
    assert Names(cs)[k] == name;
    assert multiset(RootNames(assocs))[name] >= 1;
    RootNamesMembers(assocs, name);
    var j := FindRootAssoc(assocs, name).value;
    RootNamesRemoveAt(assocs, j, name);
    var rest := Names(RemoveNamed(cs, name));
    forall x ensures multiset(rest)[x] <= 1 {
      assert multiset(rest)[x] <= multiset(Names(cs))[x];
    }
  }

  /** _remove_existing_clusters keeps every cluster paired with its root
      association: a cluster and its root association are removed together,
      so the pairing never drifts. */
  lemma {:induction false} RemoveKeepsPaired(cs: seq<Cluster>, assocs: seq<Assoc>, names: seq<string>)
    requires Paired(cs, assocs) && AllFound(cs, names)
    ensures Paired(RemoveEach(cs, names), RemoveRoots(assocs, names))
  {
    if names != [] {
      var init := names[..|names| - 1];
      RemoveKeepsPaired(cs, assocs, init);
      RemoveStepKeepsPaired(RemoveEach(cs, init), RemoveRoots(assocs, init), names[|names| - 1]);
    }
  }

  lemma RemoveNamedKeeps(cs: seq<Cluster>, name: string, other: string)
    requires other != name && other in Names(cs)
    ensures other in Names(RemoveNamed(cs, name))
  {
    var i :| 0 <= i < |cs| && cs[i].name == other;
    match FindCluster(cs, name)
    case None =>
    case Some(k) =>
      var r := RemoveAt(cs, k);
      if i < k { assert r[i] == cs[i]; assert Names(r)[i] == other; }
      else { assert r[i - 1] == cs[i]; assert Names(r)[i - 1] == other; }
  }

  lemma {:induction false} RemoveEachKeeps(cs: seq<Cluster>, names: seq<string>, other: string)
    requires other !in names && other in Names(cs)
    ensures other in Names(RemoveEach(cs, names))
  {
    if names != [] {
      var init := names[..|names| - 1];
      assert other !in init by { assert forall x :: x in init ==> x in names; }
      RemoveEachKeeps(cs, init, other);
      RemoveNamedKeeps(RemoveEach(cs, init), names[|names| - 1], other);
    }
  }

  /** When the returned names are distinct and all in the mirror, every lookup
      of the cascade succeeds. */
  lemma {:induction false} AllFoundWhenDistinct(cs: seq<Cluster>, names: seq<string>)
    requires NoDuplicates(names)
    requires forall n :: n in names ==> n in Names(cs)
    ensures AllFound(cs, names)
  {
    if names != [] {
      var init := names[..|names| - 1];
      var last := names[|names| - 1];
      assert names == init + [last];
      assert forall x :: multiset(init)[x] <= multiset(names)[x];
      assert forall x :: x in init ==> x in names;
      AllFoundWhenDistinct(cs, init);
      assert multiset(names)[last] == multiset(init)[last] + 1;
      assert last !in init;
      RemoveEachKeeps(cs, init, last);
    }
  }

  lemma InNames(cs: seq<Cluster>, c: Cluster)
    requires c in cs
    ensures c.name in Names(cs)
  {
    var i :| 0 <= i < |cs| && cs[i] == c;
    assert Names(cs)[i] == c.name;
  }

  lemma FoundInNames(cs: seq<Cluster>, name: string)
    ensures FindCluster(cs, name).Some? <==> name in Names(cs)
  {
    if name in Names(cs) {
      var i :| 0 <= i < |cs| && Names(cs)[i] == name;
      assert cs[i].name == name;
    }
    if FindCluster(cs, name).Some? {
      assert Names(cs)[FindCluster(cs, name).value] == name;
    }
  }

  /** The elements left by RemoveAt are those at the other positions. */
  lemma RemoveAtMembers<T>(cs: seq<T>, k: nat, c: T)
    requires k < |cs|
    ensures c in RemoveAt(cs, k) <==> exists i :: 0 <= i < |cs| && i != k && cs[i] == c
  {
    var r := RemoveAt(cs, k);
    if c in r {
      var j :| 0 <= j < |r| && r[j] == c;
      if j < k { assert cs[j] == c; } else { assert cs[j + 1] == c; }
    }
    if exists i :: 0 <= i < |cs| && i != k && cs[i] == c {
      var i :| 0 <= i < |cs| && i != k && cs[i] == c;
      if i < k { assert r[i] == c; } else { assert r[i - 1] == c; }
    }
  }

  /** Removing one cluster of a mirror with unique names keeps the names
      unique and leaves no cluster with the removed name. */
  lemma RemoveAtNames(cs: seq<Cluster>, k: nat)
    requires k < |cs| && NoDuplicates(Names(cs))
    ensures NoDuplicates(Names(RemoveAt(cs, k)))
    ensures cs[k].name !in Names(RemoveAt(cs, k))
  {
    NamesRemoveAt(cs, k);
    var rest := Names(RemoveAt(cs, k));
    assert multiset(Names(cs))[cs[k].name] >= 1 by { assert Names(cs)[k] == cs[k].name; }
    forall x ensures multiset(rest)[x] <= 1 {
      assert multiset(rest)[x] <= multiset(Names(cs))[x];
    }
  }

  lemma RemoveNamedMembers(cs: seq<Cluster>, name: string, c: Cluster)
    requires NoDuplicates(Names(cs))
    ensures c in RemoveNamed(cs, name) <==> c in cs && c.name != name
    ensures NoDuplicates(Names(RemoveNamed(cs, name)))
  {
    match FindCluster(cs, name)
    case None =>
      if c in cs { InNames(cs, c); FoundInNames(cs, name); }
    case Some(k) =>
      RemoveAtNames(cs, k);
      RemoveAtMembers(cs, k, c);
      if c in RemoveAt(cs, k) {
        InNames(RemoveAt(cs, k), c);
      }
      if c in cs && c.name != name {
        var i :| 0 <= i < |cs| && cs[i] == c;
        assert i != k;
      }
  }

  /** With unique cluster names, the cascade leaves exactly the clusters whose
      name was not returned. */
  lemma {:induction false} RemoveEachMembers(cs: seq<Cluster>, names: seq<string>, c: Cluster)
    requires NoDuplicates(Names(cs))
    ensures c in RemoveEach(cs, names) <==> c in cs && c.name !in names
    ensures NoDuplicates(Names(RemoveEach(cs, names)))
  {
    if names != [] {
      var init := names[..|names| - 1];
      assert names == init + [names[|names| - 1]];
      RemoveEachMembers(cs, init, c);
      RemoveNamedMembers(RemoveEach(cs, init), names[|names| - 1], c);
    }
  }

  /** Under the pairing, no cluster has two root associations. */
  lemma PairedRootsUnique(cs: seq<Cluster>, assocs: seq<Assoc>)
    requires Paired(cs, assocs)
    ensures NoDuplicates(RootNames(assocs))
  {
    forall x ensures multiset(RootNames(assocs))[x] <= 1 {
      assert multiset(Names(cs))[x] <= 1;
    }
  }

  /** One turn of the cascade on the association mirror removes the root
      association of that name, if there is one, and nothing else. */
  lemma RemoveRootOfMembers(assocs: seq<Assoc>, name: string, a: Assoc)
    requires NoDuplicates(RootNames(assocs))
    ensures a in RemoveRootOf(assocs, name) <==> a in assocs && !IsRootOf(a, name)
    ensures NoDuplicates(RootNames(RemoveRootOf(assocs, name)))
  {
    match FindRootAssoc(assocs, name)
    case None =>
    case Some(k) =>
      var r := RemoveAt(assocs, k);
      RootNamesRemoveAt(assocs, k, name);
      RemoveAtMembers(assocs, k, a);
      forall x ensures multiset(RootNames(r))[x] <= 1 {
        assert multiset(RootNames(r))[x] <= multiset(RootNames(assocs))[x];
      }
      // RootNames(r) no longer holds name, so no association of r is a root
      // association of name.
      RootNamesMembers(r, name);
  }

  /** With at most one root association per cluster, the cascade leaves
      exactly the associations that are not the root association of a
      returned name. */
  lemma {:induction false} RemoveRootsMembers(assocs: seq<Assoc>, names: seq<string>, a: Assoc)
    requires NoDuplicates(RootNames(assocs))
    ensures a in RemoveRoots(assocs, names) <==> a in assocs && !(a.acct == "root" && a.cluster in names)
    ensures NoDuplicates(RootNames(RemoveRoots(assocs, names)))
  {
    if names != [] {
      var init := names[..|names| - 1];
      assert names == init + [names[|names| - 1]];
      RemoveRootsMembers(assocs, init, a);
      RemoveRootOfMembers(RemoveRoots(assocs, init), names[|names| - 1], a);
    }
  }

  /** sacctmgr_add_cluster stages exactly the names that are not in the mirror,
      each with the shared limits. */
  lemma {:induction false} StagedMembers(names: seq<string>, l: Limits, cs: seq<Cluster>, c: Cluster)
    ensures c in Staged(names, l, cs) <==> c.name in names && c.name !in Names(cs) && c.limits == l
  {
    if names != [] {
      var init := names[..|names| - 1];
      assert names == init + [names[|names| - 1]];
      StagedMembers(init, l, cs, c);
      FoundInNames(cs, names[|names| - 1]);
    }
  }

  lemma {:induction false} StagedNames(names: seq<string>, l: Limits, cs: seq<Cluster>)
    ensures forall x :: multiset(Names(Staged(names, l, cs)))[x] <= multiset(names)[x]
    ensures forall x :: x in Names(cs) ==> x !in Names(Staged(names, l, cs))
  {
    if names != [] {
      var init := names[..|names| - 1];
      var last := names[|names| - 1];
      assert names == init + [last];
      StagedNames(init, l, cs);
      var add := if FindCluster(cs, last).None? then [Cluster(last, l)] else [];
      NamesAppend(Staged(init, l, cs), add);
    }
  }

  lemma {:induction false} RootNamesOfRootAssocs(cs: seq<Cluster>)
    ensures RootNames(RootAssocs(cs)) == Names(cs)
  {
    if cs != [] {
      var init := cs[..|cs| - 1];
      assert RootAssocs(cs) == RootAssocs(init) + [RootAssoc(cs[|cs| - 1])];
      RootNamesAppend(RootAssocs(init), [RootAssoc(cs[|cs| - 1])]);
      assert RootNames([RootAssoc(cs[|cs| - 1])]) == [cs[|cs| - 1].name] by {
        assert [RootAssoc(cs[|cs| - 1])][..0] == [];
      }
      RootNamesOfRootAssocs(init);
      assert Names(cs) == Names(init) + [cs[|cs| - 1].name];
    }
  }

  /** Committing an Add keeps every cluster paired with its root association. */
  lemma AddKeepsPaired(cs: seq<Cluster>, assocs: seq<Assoc>, names: seq<string>, l: Limits)
    requires Paired(cs, assocs) && NoDuplicates(names)
    ensures Paired(cs + Staged(names, l, cs), assocs + RootAssocs(Staged(names, l, cs)))
  {
    var batch := Staged(names, l, cs);
    StagedNames(names, l, cs);
    NamesAppend(cs, batch);
    RootNamesAppend(assocs, RootAssocs(batch));
    RootNamesOfRootAssocs(batch);
    var all := Names(cs + batch);
    forall x ensures multiset(all)[x] <= 1 {
      if x in Names(cs) {
        assert x !in Names(batch);
      }
    }
  }
}
