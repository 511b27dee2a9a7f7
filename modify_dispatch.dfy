/** The Where/Set dispatch loop of sacctmgr_modify_cluster. The loop hands
    whole runs of tokens to _set_cond and _set_rec; the model states what it
    computes as an automaton that reads one token at a time, and proves the
    loop equal to it. */
module ModifyDispatch {
  import opened Common
  import opened Records
  import opened Tokens
  import opened ClusterParse

  /** Where the dispatch stands: at the first token, in a condition run
      (after "Where", or a leading run), or in a Set clause. */
  datatype Clause = Leading | InWhere | InSet

  /** What a token is to the dispatch, given the clause it falls in. */
  datatype Role = WhereKeyword | SetKeyword | ConditionToken | AssignmentToken

  /** A condition run stops only at "Set", so a "Where" inside it is a
      condition token; a Set clause stops at "Where". */
  function RoleOf(c: Clause, t: Token): Role {
    match c
    case Leading =>
      if Is(t, WhereKw) then WhereKeyword
      else if Is(t, SetKw) then SetKeyword
      else ConditionToken
    case InWhere => if Is(t, SetKw) then SetKeyword else ConditionToken
    case InSet => if Is(t, WhereKw) then WhereKeyword else AssignmentToken
  }

  datatype ModifyScan = ModifyScan(clause: Clause, names: seq<string>, patch: Limits,
                                   condSet: bool, recSet: bool)

  function ModifyStep(s: ModifyScan, t: Token): ModifyScan {
    match RoleOf(s.clause, t)
    case WhereKeyword => s.(clause := InWhere)
    case SetKeyword => s.(clause := InSet)
    case ConditionToken =>
      s.(clause := InWhere, names := AddName(s.names, t), condSet := s.condSet || t.name.Some?)
    case AssignmentToken =>
      s.(clause := InSet, patch := Apply(s.patch, t.setAssign), recSet := s.recSet || t.setAssign.Some?)
  }

  /** The dispatch state after the tokens ts[..n], one token at a time; the
      record of Modify starts all zero. */
  function ModifyScanAt(ts: seq<Token>, n: nat): ModifyScan
    requires n <= |ts|
  {
    if n == 0 then ModifyScan(Leading, [], AllZero, false, false)
    else ModifyStep(ModifyScanAt(ts, n - 1), ts[n - 1])
  }

  function RoleAt(ts: seq<Token>, k: nat): Role
    requires k < |ts|
  {
    RoleOf(ModifyScanAt(ts, k).clause, ts[k])
  }

  /** The positions at which the outer loop of sacctmgr_modify_cluster looks
      at a token: the first one, and the keyword that ended a run. */
  predicate AtDispatch(c: Clause, t: Token) {
    c == Leading || (c == InWhere && Is(t, SetKw)) || (c == InSet && Is(t, WhereKw))
  }

  /** A condition run of the automaton is what _set_cond computes. */
  lemma {:induction false} WhereRun(ts: seq<Token>, a: nat, b: nat)
    requires a <= b <= |ts|
    requires ModifyScanAt(ts, a).clause == InWhere
    requires forall k :: a <= k < b ==> !Is(ts[k], SetKw)
    ensures var s := ModifyScanAt(ts, a);
            ModifyScanAt(ts, b) == s.(names := AddNames(s.names, ts, a, b), condSet := s.condSet || AnyName(ts, a, b))
    decreases b
  {
    if b > a {
      WhereRun(ts, a, b - 1);
      AnyNameStep(ts, a, b - 1);
    }
  }

  /** A Set clause of the automaton is what _set_rec computes. */
  lemma {:induction false} SetRun(ts: seq<Token>, a: nat, b: nat)
    requires a <= b <= |ts|
    requires ModifyScanAt(ts, a).clause == InSet
    requires forall k :: a <= k < b ==> !Is(ts[k], WhereKw)
    ensures var s := ModifyScanAt(ts, a);
            ModifyScanAt(ts, b) ==
              s.(patch := ApplyRun(SetLine, s.patch, ts, a, b), recSet := s.recSet || AnyAssign(SetLine, ts, a, b))
    decreases b
  {
    if b > a {
      SetRun(ts, a, b - 1);
      AnyAssignStep(SetLine, ts, a, b - 1);
    }
  }

  /** A leading condition run: its first token is a condition token. */
  lemma LeadingRun(ts: seq<Token>, a: nat, b: nat)
    requires a < b <= |ts|
    requires ModifyScanAt(ts, a).clause == Leading
    requires !Is(ts[a], WhereKw)
    requires forall k :: a <= k < b ==> !Is(ts[k], SetKw)
    ensures var s := ModifyScanAt(ts, a);
            ModifyScanAt(ts, b) ==
              s.(clause := InWhere, names := AddNames(s.names, ts, a, b), condSet := s.condSet || AnyName(ts, a, b))
  {
    var s := ModifyScanAt(ts, a);
    assert ModifyScanAt(ts, a + 1) == ModifyStep(s, ts[a]);
    WhereRun(ts, a + 1, b);
    AddNamesSplit(s.names, ts, a, a + 1, b);
    assert AnyName(ts, a, b) == (ts[a].name.Some? || AnyName(ts, a + 1, b));
  }

  /** Where the clause that starts at a dispatch position i ends: at the
      next "Set" after a "Where" or a leading run, at the next "Where"
      after a "Set". */
  function ClauseStop(ts: seq<Token>, i: nat): (stop: nat)
    requires i < |ts|
    ensures i < stop <= |ts|
  {
    if Is(ts[i], WhereKw) then ClauseEnd(ts, i + 1, SetKw)
    else if Is(ts[i], SetKw) then ClauseEnd(ts, i + 1, WhereKw)
    else ClauseEnd(ts, i, SetKw)
  }

  /** The state after the clause that starts at i, as one call of _set_cond
      or _set_rec computes it. */
  ghost function ClauseStep(ts: seq<Token>, i: nat, s: ModifyScan): ModifyScan
    requires i < |ts|
  {
    var stop := ClauseStop(ts, i);
    if Is(ts[i], WhereKw) then
      ModifyScan(InWhere, AddNames(s.names, ts, i + 1, stop), s.patch, s.condSet || AnyName(ts, i + 1, stop), s.recSet)
    else if Is(ts[i], SetKw) then
      ModifyScan(InSet, s.names, ApplyRun(SetLine, s.patch, ts, i + 1, stop), s.condSet, s.recSet || AnyAssign(SetLine, ts, i + 1, stop))
    else
      ModifyScan(InWhere, AddNames(s.names, ts, i, stop), s.patch, s.condSet || AnyName(ts, i, stop), s.recSet)
  }

  /** The outer loop of sacctmgr_modify_cluster from position i on, one
      clause at a time. */
  ghost function DispatchFrom(ts: seq<Token>, i: nat, s: ModifyScan): ModifyScan
    requires i <= |ts|
    decreases |ts| - i
  {
    if i == |ts| then s else DispatchFrom(ts, ClauseStop(ts, i), ClauseStep(ts, i, s))
  }

  /** A "Where" at a dispatch position: the automaton reads that keyword and
      then the condition run _set_cond computes, up to the next "Set". */
  lemma WhereClause(ts: seq<Token>, i: nat)
    requires i < |ts| && AtDispatch(ModifyScanAt(ts, i).clause, ts[i]) && Is(ts[i], WhereKw)
    ensures var s := ModifyScanAt(ts, i);
            var stop := ClauseEnd(ts, i + 1, SetKw);
            ModifyScanAt(ts, stop) ==
              ModifyScan(InWhere, AddNames(s.names, ts, i + 1, stop), s.patch, s.condSet || AnyName(ts, i + 1, stop), s.recSet)
  {
    var s := ModifyScanAt(ts, i);
    assert ModifyScanAt(ts, i + 1) == s.(clause := InWhere);
    WhereRun(ts, i + 1, ClauseEnd(ts, i + 1, SetKw));
  }

  /** A "Set" at a dispatch position: the automaton reads that keyword and
      then the Set clause _set_rec computes, up to the next "Where". */
  lemma SetClause(ts: seq<Token>, i: nat)
    requires i < |ts| && AtDispatch(ModifyScanAt(ts, i).clause, ts[i]) && Is(ts[i], SetKw)
    ensures var s := ModifyScanAt(ts, i);
            var stop := ClauseEnd(ts, i + 1, WhereKw);
            ModifyScanAt(ts, stop) ==
              ModifyScan(InSet, s.names, ApplyRun(SetLine, s.patch, ts, i + 1, stop), s.condSet, s.recSet || AnyAssign(SetLine, ts, i + 1, stop))
  {
    var s := ModifyScanAt(ts, i);
    assert ModifyScanAt(ts, i + 1) == s.(clause := InSet);
    SetRun(ts, i + 1, ClauseEnd(ts, i + 1, WhereKw));
  }

  /** Any other token at a dispatch position is the first token of the
      argument line, and opens a condition run up to the first "Set". */
  lemma ConditionClause(ts: seq<Token>, i: nat)
    requires i < |ts| && AtDispatch(ModifyScanAt(ts, i).clause, ts[i]) && !Is(ts[i], WhereKw) && !Is(ts[i], SetKw)
    ensures var s := ModifyScanAt(ts, i);
            var stop := ClauseEnd(ts, i, SetKw);
            ModifyScanAt(ts, stop) ==
              ModifyScan(InWhere, AddNames(s.names, ts, i, stop), s.patch, s.condSet || AnyName(ts, i, stop), s.recSet)
  {
    LeadingRun(ts, i, ClauseEnd(ts, i, SetKw));
  }

  /** From a dispatch position, a whole clause takes the automaton to the
      next dispatch position, in the state that clause computes. */
  lemma ClauseStepScan(ts: seq<Token>, i: nat)
    requires i < |ts| && AtDispatch(ModifyScanAt(ts, i).clause, ts[i])
    ensures var stop := ClauseStop(ts, i);
            && ModifyScanAt(ts, stop) == ClauseStep(ts, i, ModifyScanAt(ts, i))
            && (stop < |ts| ==> AtDispatch(ModifyScanAt(ts, stop).clause, ts[stop]))
  {
    if Is(ts[i], WhereKw) {
      WhereClause(ts, i);
    } else if Is(ts[i], SetKw) {
      SetClause(ts, i);
    } else {
      ConditionClause(ts, i);
    }
  }

  /** Clause by clause or token by token, the dispatch ends in the same state. */
  lemma {:induction false} DispatchFromScan(ts: seq<Token>, i: nat)
    requires i <= |ts|
    requires i < |ts| ==> AtDispatch(ModifyScanAt(ts, i).clause, ts[i])
    ensures DispatchFrom(ts, i, ModifyScanAt(ts, i)) == ModifyScanAt(ts, |ts|)
    decreases |ts| - i
  {
    if i < |ts| {
      ClauseStepScan(ts, i);
      DispatchFromScan(ts, ClauseStop(ts, i));
    }
  }

  /** One turn of the dispatch loop of sacctmgr_modify_cluster, at position
      i: a "Where" or "Set" keyword is skipped and the clause after it handed
      to _set_cond or _set_rec; any other token starts a condition run there.
      It returns the index the loop goes on from before its own increment. */
  method DispatchClause(argv: seq<string>, i: nat, ghost clause: Clause, names: seq<string>, patch: Limits,
                        condSet: bool, recSet: bool)
    returns (next: int, names': seq<string>, patch': Limits, condSet': bool, recSet': bool)
    requires i < |argv|
    ensures var ts := Lex(argv);
            var stop := ClauseStop(ts, i);
            var s := ClauseStep(ts, i, ModifyScan(clause, names, patch, condSet, recSet));
            && next == (if stop < |argv| then stop - 1 else |argv|)
            && names' == s.names && patch' == s.patch && condSet' == s.condSet && recSet' == s.recSet
  {
    ghost var ts := Lex(argv);
    LexKeyword(argv, i);
    names', patch', condSet', recSet' := names, patch, condSet, recSet;
    var found: bool;
    if IsKeyword(argv[i], WhereKw) {
      assert ClauseStop(ts, i) == ClauseEnd(ts, i + 1, SetKw);
      next, names', found := SetCond(argv, i + 1, names);
      if found {
        condSet' := true;
      }
    } else if IsKeyword(argv[i], SetKw) {
      assert ClauseStop(ts, i) == ClauseEnd(ts, i + 1, WhereKw);
      next, patch', found := SetRec(argv, i + 1, patch);
      if found {
        recSet' := true;
      }
    } else {
      assert ClauseStop(ts, i) == ClauseEnd(ts, i, SetKw);
      next, names', found := SetCond(argv, i, names);
      if found {
        condSet' := true;
      }
    }
  }

  /** The dispatch loop of sacctmgr_modify_cluster (its lines before the
      "nothing to set" check): it computes the automaton's final state. */
  method ParseModifyArgs(argv: seq<string>) returns (names: seq<string>, patch: Limits, condSet: bool, recSet: bool)
    ensures var s := ModifyScanAt(Lex(argv), |argv|);
            names == s.names && patch == s.patch && condSet == s.condSet && recSet == s.recSet
  {
    ghost var ts := Lex(argv);
    names, patch, condSet, recSet := [], AllZero, false, false;
    var i: int := 0;
    ghost var pos: nat := 0;
    ghost var clause := Leading;
    DispatchFromScan(ts, 0);
    while i < |argv|
      invariant 0 <= i <= |argv| + 1
      invariant pos == if i <= |argv| then i else |argv|
      invariant DispatchFrom(ts, pos, ModifyScan(clause, names, patch, condSet, recSet)) == ModifyScanAt(ts, |ts|)
      decreases |argv| + 1 - i
    {
      ghost var s := ClauseStep(ts, i, ModifyScan(clause, names, patch, condSet, recSet));
      var next: int;
      next, names, patch, condSet, recSet := DispatchClause(argv, i, clause, names, patch, condSet, recSet);
      clause, pos := s.clause, ClauseStop(ts, i);
      i := next + 1;
    }
  }

  // ---------------------------------------------------------------------------
  // What the dispatch computes

  /** Token k is an assignment of a Set clause that names a known limit. */
  predicate AssignsAt(ts: seq<Token>, k: nat)
    requires k < |ts|
  {
    RoleAt(ts, k) == AssignmentToken && ts[k].setAssign.Some?
  }

  /** Token k is a condition token that names a cluster. */
  predicate NamesAt(ts: seq<Token>, k: nat)
    requires k < |ts|
  {
    RoleAt(ts, k) == ConditionToken && ts[k].name.Some?
  }

  /** Modify has something to set exactly when some token of a Set clause
      assigns a limit. */
  lemma {:induction false} RecSetMeans(ts: seq<Token>, n: nat)
    requires n <= |ts|
    ensures ModifyScanAt(ts, n).recSet <==> exists k :: 0 <= k < n && AssignsAt(ts, k)
  {
    if n > 0 {
      RecSetMeans(ts, n - 1);
      if !AssignsAt(ts, n - 1) {
        assert ModifyScanAt(ts, n).recSet == ModifyScanAt(ts, n - 1).recSet;
        assert (exists k :: 0 <= k < n && AssignsAt(ts, k)) == (exists k :: 0 <= k < n - 1 && AssignsAt(ts, k));
      }
    }
  }

  /** Modify has a condition exactly when some condition token names a
      cluster. */
  lemma {:induction false} CondSetMeans(ts: seq<Token>, n: nat)
    requires n <= |ts|
    ensures ModifyScanAt(ts, n).condSet <==> exists k :: 0 <= k < n && NamesAt(ts, k)
  {
    if n > 0 {
      CondSetMeans(ts, n - 1);
      if !NamesAt(ts, n - 1) {
        assert ModifyScanAt(ts, n).condSet == ModifyScanAt(ts, n - 1).condSet;
        assert (exists k :: 0 <= k < n && NamesAt(ts, k)) == (exists k :: 0 <= k < n - 1 && NamesAt(ts, k));
      }
    }
  }

  /** Token k is a condition token whose name is x. */
  predicate NamesAs(ts: seq<Token>, k: nat, x: string)
    requires k < |ts|
  {
    RoleAt(ts, k) == ConditionToken && ts[k].name == Some(x)
  }

  /** The condition of Modify holds the non-empty name of every condition
      token, and nothing else. */
  lemma {:induction false} ModifyNamesMembers(ts: seq<Token>, n: nat, x: string)
    requires n <= |ts|
    ensures x in ModifyScanAt(ts, n).names <==> x != "" && exists k :: 0 <= k < n && NamesAs(ts, k, x)
  {
    if n > 0 {
      ModifyNamesMembers(ts, n - 1, x);
      var s := ModifyScanAt(ts, n - 1);
      if RoleAt(ts, n - 1) == ConditionToken {
        assert ModifyScanAt(ts, n).names == AddName(s.names, ts[n - 1]);
        if !NamesAs(ts, n - 1, x) {
          assert x in ModifyScanAt(ts, n).names <==> x in s.names;
          assert (exists k :: 0 <= k < n && NamesAs(ts, k, x)) == (exists k :: 0 <= k < n - 1 && NamesAs(ts, k, x));
        }
      } else {
        assert ModifyScanAt(ts, n).names == s.names;
        assert (exists k :: 0 <= k < n && NamesAs(ts, k, x)) == (exists k :: 0 <= k < n - 1 && NamesAs(ts, k, x));
      }
    }
  }

  /** Token k is an assignment of a Set clause to the limit f. */
  predicate SetsAt(ts: seq<Token>, k: nat, f: Field)
    requires k < |ts|
  {
    RoleAt(ts, k) == AssignmentToken && Sets(SetLine, ts[k], f)
  }

  /** What one token does to one limit of the Modify patch. */
  lemma PatchStep(ts: seq<Token>, n: nat, f: Field)
    requires 0 < n <= |ts|
    ensures ModifyScanAt(ts, n).patch.Get(f) ==
            if SetsAt(ts, n - 1, f) then ts[n - 1].setAssign.value.value else ModifyScanAt(ts, n - 1).patch.Get(f)
  {
  }

  /** A limit that no Set-clause token assigns stays 0 in the Modify patch. */
  lemma {:induction false} PatchUntouched(ts: seq<Token>, n: nat, f: Field)
    requires n <= |ts|
    requires forall k :: 0 <= k < n ==> !SetsAt(ts, k, f)
    ensures ModifyScanAt(ts, n).patch.Get(f) == 0
  {
    if n > 0 {
      PatchUntouched(ts, n - 1, f);
      PatchStep(ts, n, f);
    }
  }

  /** A limit of the Modify patch has the value of the last Set-clause token
      that assigns it. */
  lemma {:induction false} PatchLastAssignmentWins(ts: seq<Token>, n: nat, f: Field, k: nat)
    requires k < n <= |ts|
    requires SetsAt(ts, k, f)
    requires forall j :: k < j < n ==> !SetsAt(ts, j, f)
    ensures ModifyScanAt(ts, n).patch.Get(f) == ts[k].setAssign.value.value
  {
    PatchStep(ts, n, f);
    if k < n - 1 {
      PatchLastAssignmentWins(ts, n - 1, f, k);
    }
  }
}
