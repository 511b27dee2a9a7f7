/** The cluster commands of sacctmgr (add, list, modify, delete) over the
    session's two mirrors of the accounting database: the cluster list and
    the association list. The storage plugin and the commit_check prompt are
    not modelled; what they answer is passed in, and every call the command
    makes into the plugin is appended to a log. */
module ClusterFunctions {
  import opened Common
  import opened Records
  import opened Tokens
  import opened ClusterParse
  import opened ModifyDispatch

  /** The condition a command line gives when its leading run is read by
      _set_cond from index 0 (list and delete): the names of that run. */
  function LeadingFilter(argv: seq<string>): seq<string> {
    var ts := Lex(argv);
    AddNames([], ts, 0, ClauseEnd(ts, 0, SetKw))
  }

  /** What _set_cond returns for that run: some token of it names a cluster. */
  ghost predicate LeadingCondSet(argv: seq<string>) {
    var ts := Lex(argv);
    AnyName(ts, 0, ClauseEnd(ts, 0, SetKw))
  }

  /** The storage plugin returned a non-empty list of affected clusters. */
  predicate Affected(ret: Option<seq<string>>) {
    ret.Some? && |ret.value| > 0
  }

  /** The defaults sacctmgr_modify_cluster sends: a limit that is not
      positive becomes "-1" (unset), a positive one is sent as given. */
  function Normalize(l: Limits): (r: Limits)
    ensures forall f :: l.Get(f) <= 0 ==> r.Get(f) == Unset
    ensures forall f :: l.Get(f) > 0 ==> r.Get(f) == l.Get(f)
  {
    Limits(if l.fairshare <= 0 then Unset else l.fairshare,
           if l.maxJobs <= 0 then Unset else l.maxJobs,
           if l.maxNodesPerJob <= 0 then Unset else l.maxNodesPerJob,
           if l.maxWallDurationPerJob <= 0 then Unset else l.maxWallDurationPerJob,
           if l.maxCpuSecsPerJob <= 0 then Unset else l.maxCpuSecsPerJob)
  }

  /** After the normalisation every limit is unset or positive, and
      normalising again changes nothing. */
  lemma NormalizeRange(l: Limits, f: Field)
    ensures Normalize(l).Get(f) == Unset || Normalize(l).Get(f) > 0
    ensures Normalize(Normalize(l)) == Normalize(l)
  {
  }

  /** AllFound holds of every prefix of a list it holds of. */
  lemma {:induction false} AllFoundPrefix(cs: seq<Cluster>, names: seq<string>, k: nat)
    requires k <= |names| && AllFound(cs, names)
    ensures AllFound(cs, names[..k])
    decreases |names|
  {
    if k < |names| {
      var init := names[..|names| - 1];
      assert init[..k] == names[..k];
      AllFoundPrefix(cs, init, k);
    } else {
      assert names[..k] == names;
    }
  }

  /** Turn k of the cascade: the k-th name is found in what the earlier turns
      left, and both mirrors lose what RemoveNamed and RemoveRootOf say. */
  lemma CascadeAt(cs: seq<Cluster>, assocs: seq<Assoc>, names: seq<string>, k: nat)
    requires k < |names| && AllFound(cs, names)
    ensures FindCluster(RemoveEach(cs, names[..k]), names[k]).Some?
    ensures RemoveEach(cs, names[..k + 1]) == RemoveNamed(RemoveEach(cs, names[..k]), names[k])
    ensures RemoveRoots(assocs, names[..k + 1]) == RemoveRootOf(RemoveRoots(assocs, names[..k]), names[k])
  {
    var p := names[..k + 1];
    assert p[..|p| - 1] == names[..k] && p[|p| - 1] == names[k];
    AllFoundPrefix(cs, names, k + 1);
    assert AllFound(cs, p);
  }

  /** Turn k of the staging loop of sacctmgr_add_cluster. */
  lemma StagedAt(names: seq<string>, l: Limits, cs: seq<Cluster>, k: nat)
    requires k < |names|
    ensures Staged(names[..k + 1], l, cs) ==
            Staged(names[..k], l, cs) + (if FindCluster(cs, names[k]).None? then [Cluster(names[k], l)] else [])
  {
    assert names[..k + 1][..k] == names[..k];
  }

  /** Turn j of the commit loop of sacctmgr_add_cluster. */
  lemma RootAssocsAt(batch: seq<Cluster>, j: nat)
    requires j < |batch|
    ensures batch[..j + 1] == batch[..j] + [batch[j]]
    ensures RootAssocs(batch[..j + 1]) == RootAssocs(batch[..j]) + [Assoc("root", batch[j].name, batch[j].limits)]
  {
    assert batch[..j + 1] == batch[..j] + [batch[j]];
  }

  /** The session: sacctmgr_cluster_list and sacctmgr_association_list, and
      the calls made into the storage plugin so far. */
  class Session {
    var clusters: seq<Cluster>
    var assocs: seq<Assoc>
    var log: seq<Call>

    constructor(clusters0: seq<Cluster>, assocs0: seq<Assoc>)
      ensures clusters == clusters0 && assocs == assocs0 && log == []
    {
      clusters, assocs, log := clusters0, assocs0, [];
    }

    /** _remove_existing_clusters: for each returned name in turn, drops the
        cluster of that name from the cluster mirror and the root association
        of that cluster from the association mirror. Without a list it only
        reports an error. Each name must be found when its turn comes, since
        the source reads the name of the cluster it looked up unchecked. */
    method RemoveExistingClusters(ret: Option<seq<string>>)
      requires ret.Some? ==> AllFound(clusters, ret.value)
      modifies this
      ensures ret.None? ==> clusters == old(clusters) && assocs == old(assocs)
      ensures ret.Some? ==> clusters == RemoveEach(old(clusters), ret.value)
      ensures ret.Some? ==> assocs == RemoveRoots(old(assocs), ret.value)
      ensures log == old(log)
      ensures old(Paired(clusters, assocs)) ==> Paired(clusters, assocs)
    {
      if ret.None? {
        // no list: only an error message
        return;
      }
      var names := ret.value;
      var k := 0;
      while k < |names|
        invariant 0 <= k <= |names|
        invariant clusters == RemoveEach(old(clusters), names[..k])
        invariant assocs == RemoveRoots(old(assocs), names[..k])
        invariant log == old(log)
      {
        var name := names[k];
        CascadeAt(old(clusters), old(assocs), names, k);
        var found := FindCluster(clusters, name);
        var cluster := clusters[found.value];
        clusters := RemoveAt(clusters, found.value);
        var assoc := FindRootAssoc(assocs, cluster.name);
        if assoc.Some? {
          assocs := RemoveAt(assocs, assoc.value);
        }
        k := k + 1;
      }
      assert names[..k] == names;
      if old(Paired(clusters, assocs)) {
        RemoveKeepsPaired(old(clusters), old(assocs), names);
      }
    }

    /** The staging loop of sacctmgr_add_cluster: one record per name, in
        list order, skipping the names the cluster mirror already holds. */
    method StageClusters(names: seq<string>, limits: Limits) returns (batch: seq<Cluster>)
      ensures batch == Staged(names, limits, clusters)
    {
      batch := [];
      var k := 0;
      while k < |names|
        invariant 0 <= k <= |names|
        invariant batch == Staged(names[..k], limits, clusters)
      {
        StagedAt(names, limits, clusters, k);
        if FindCluster(clusters, names[k]).Some? {
          // already in the mirror: a notice, the name is skipped
          k := k + 1;
          continue;
        }
        batch := batch + [Cluster(names[k], limits)];
        k := k + 1;
      }
      assert names[..k] == names;
    }

    /** The commit loop of sacctmgr_add_cluster: pops each staged cluster,
        appends it to the cluster mirror and appends a root association with
        its limits to the association mirror. */
    method AppendStaged(batch: seq<Cluster>)
      modifies this
      ensures clusters == old(clusters) + batch
      ensures assocs == old(assocs) + RootAssocs(batch)
      ensures log == old(log)
    {
      var j := 0;
      while j < |batch|
        invariant 0 <= j <= |batch|
        invariant clusters == old(clusters) + batch[..j]
        invariant assocs == old(assocs) + RootAssocs(batch[..j])
        invariant log == old(log)
      {
        RootAssocsAt(batch, j);
        clusters := clusters + [batch[j]];
        assocs := assocs + [Assoc("root", batch[j].name, batch[j].limits)];
        j := j + 1;
      }
      assert batch[..j] == batch;
    }

    /** sacctmgr_add_cluster. addRc is what acct_storage_g_add_clusters
        returns, confirm what commit_check answers. Without a name it fails
        before any plugin call. Otherwise it stages one record per name the
        cluster mirror does not hold, sends them, and on success commits or
        rolls back as confirmed; a commit appends the staged clusters and a
        root association for each to the mirrors. */
    method AddCluster(argv: seq<string>, addRc: int, confirm: bool) returns (rc: int)
      modifies this
      ensures var ts := Lex(argv);
              var names := AddNames([], ts, 0, |argv|);
              var batch := Staged(names, ApplyRun(AddLine, AllUnset, ts, 0, |argv|), old(clusters));
              && (names == [] ==> rc == SlurmError && log == old(log))
              && (names != [] ==>
                    && rc == addRc
                    && log == old(log) + [AddClusters(batch)] + (if addRc == SlurmSuccess then [Commit(confirm)] else []))
              && (names != [] && addRc == SlurmSuccess && confirm ==>
                    clusters == old(clusters) + batch && assocs == old(assocs) + RootAssocs(batch))
              && (names == [] || addRc != SlurmSuccess || !confirm ==>
                    clusters == old(clusters) && assocs == old(assocs))
      ensures old(Paired(clusters, assocs)) ==> Paired(clusters, assocs)
    {
      var names, limits, limitSet := ParseAddArgs(argv);
      if |names| == 0 {
        // no names: an error message, nothing is sent
        return SlurmError;
      }
      var batch := StageClusters(names, limits);
      rc := addRc;
      log := log + [AddClusters(batch)];
      if rc == SlurmSuccess {
        if confirm {
          log := log + [Commit(true)];
          AppendStaged(batch);
          if old(Paired(clusters, assocs)) {
            assert NoDuplicates([]) by { var e: seq<string> := []; assert forall x :: multiset(e)[x] == 0; }
            AddKeepsPaired(old(clusters), old(assocs), names, limits);
          }
        } else {
          log := log + [Commit(false)];
        }
      } else {
        // the plugin failed: an error message, no commit
      }
    }

    /** sacctmgr_list_cluster: asks the storage plugin for the clusters of the
        leading condition run; got is what it returns. A null answer is an
        error. Listing never changes either mirror. */
    method ListCluster(argv: seq<string>, got: Option<seq<Cluster>>) returns (rc: int)
      modifies this
      ensures log == old(log) + [GetClusters(LeadingFilter(argv))]
      ensures rc == if got.None? then SlurmError else SlurmSuccess
      ensures clusters == old(clusters) && assocs == old(assocs)
    {
      var next, filter, condSet := SetCond(argv, 0, []);
      log := log + [GetClusters(filter)];
      if got.None? {
        return SlurmError;
      }
      rc := SlurmSuccess;
    }

    /** sacctmgr_modify_cluster. proceed is the answer to the "no conditions"
        prompt, ret what acct_storage_g_modify_clusters returns and confirm
        the answer to the commit prompt. Nothing to set is an error and no
        condition declined is a success, both without a plugin call;
        otherwise the normalised defaults are sent, and a non-empty answer is
        committed or rolled back as confirmed. The mirrors never change. */
    method ModifyCluster(argv: seq<string>, proceed: bool, ret: Option<seq<string>>, confirm: bool) returns (rc: int)
      modifies this
      ensures var s := ModifyScanAt(Lex(argv), |argv|);
              && (!s.recSet ==> rc == SlurmError && log == old(log))
              && (s.recSet && !s.condSet && !proceed ==> rc == SlurmSuccess && log == old(log))
              && (s.recSet && (s.condSet || proceed) ==>
                    && log == old(log) + [ModifyClusters(s.names, Normalize(s.patch))] +
                                         (if Affected(ret) then [Commit(confirm)] else [])
                    && rc == if Affected(ret) then SlurmSuccess else SlurmError)
      ensures clusters == old(clusters) && assocs == old(assocs)
    {
      var names, cluster, condSet, recSet := ParseModifyArgs(argv);
      if !recSet {
        // nothing to set: an error message, nothing is sent
        return SlurmError;
      } else if !condSet {
        if !proceed {
          // declined: a notice, nothing is sent
          return SlurmSuccess;
        }
      }
      ghost var given := cluster;
      if cluster.fairshare <= 0 {
        cluster := cluster.(fairshare := Unset);
      }
      if cluster.maxCpuSecsPerJob <= 0 {
        cluster := cluster.(maxCpuSecsPerJob := Unset);
      }
      if cluster.maxJobs <= 0 {
        cluster := cluster.(maxJobs := Unset);
      }
      if cluster.maxNodesPerJob <= 0 {
        cluster := cluster.(maxNodesPerJob := Unset);
      }
      if cluster.maxWallDurationPerJob <= 0 {
        cluster := cluster.(maxWallDurationPerJob := Unset);
      }
      assert cluster == Normalize(given);
      log := log + [ModifyClusters(names, cluster)];
      if ret.Some? && |ret.value| > 0 {
        if confirm {
          log := log + [Commit(true)];
        } else {
          log := log + [Commit(false)];
        }
        rc := SlurmSuccess;
      } else {
        // the plugin failed: an error message, no commit
        rc := SlurmError;
      }
    }

    /** sacctmgr_delete_cluster. ret is what acct_storage_g_remove_clusters
        returns and confirm the answer to the commit prompt. No condition is
        an error and an empty name list a success, both without a plugin
        call; otherwise a non-empty answer is committed or rolled back as
        confirmed, and a commit removes each returned cluster and its root
        association from the mirrors. */
    method DeleteCluster(argv: seq<string>, ret: Option<seq<string>>, confirm: bool) returns (rc: int)
      requires LeadingCondSet(argv) && LeadingFilter(argv) != [] && Affected(ret) && confirm ==>
               AllFound(clusters, ret.value)
      modifies this
      ensures !LeadingCondSet(argv) ==> rc == SlurmError && log == old(log)
      ensures LeadingCondSet(argv) && LeadingFilter(argv) == [] ==> rc == SlurmSuccess && log == old(log)
      ensures LeadingCondSet(argv) && LeadingFilter(argv) != [] ==>
                && log == old(log) + [RemoveClusters(LeadingFilter(argv))] +
                                     (if Affected(ret) then [Commit(confirm)] else [])
                && rc == if Affected(ret) then SlurmSuccess else SlurmError
      ensures LeadingCondSet(argv) && LeadingFilter(argv) != [] && Affected(ret) && confirm ==>
                clusters == RemoveEach(old(clusters), ret.value) && assocs == RemoveRoots(old(assocs), ret.value)
      ensures !(LeadingCondSet(argv) && LeadingFilter(argv) != [] && Affected(ret) && confirm) ==>
                clusters == old(clusters) && assocs == old(assocs)
      ensures old(Paired(clusters, assocs)) ==> Paired(clusters, assocs)
    {
      var next, filter, condSet := SetCond(argv, 0, []);
      if !condSet {
        // no condition: an error message, nothing is sent
        return SlurmError;
      }
      if |filter| == 0 {
        return SlurmSuccess;
      }
      log := log + [RemoveClusters(filter)];
      if ret.Some? && |ret.value| > 0 {
        if confirm {
          log := log + [Commit(true)];
          RemoveExistingClusters(ret);
        } else {
          log := log + [Commit(false)];
        }
        rc := SlurmSuccess;
      } else {
        // the plugin failed: an error message, no commit
        rc := SlurmError;
      }
    }
  }
}
