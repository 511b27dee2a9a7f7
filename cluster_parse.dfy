/** The argument loops of cluster_functions.c: _set_cond, _set_rec and the
    argument loop of sacctmgr_add_cluster. Each method walks the strings as
    the source does and is proved against a fold of one token step over a
    range ts[lo..hi] of the lexed argument vector ts == Lex(argv). */
module ClusterParse {
  import opened Common
  import opened Records
  import opened Tokens

  /** The first index at or after lo whose token is the keyword, or |ts|. */
  function ClauseEnd(ts: seq<Token>, lo: nat, kw: Keyword): (stop: nat)
    requires lo <= |ts|
    ensures lo <= stop <= |ts|
    ensures forall k :: lo <= k < stop ==> !Is(ts[k], kw)
    ensures stop < |ts| ==> Is(ts[stop], kw)
    decreases |ts| - lo
  {
    if lo == |ts| || Is(ts[lo], kw) then lo else ClauseEnd(ts, lo + 1, kw)
  }

  /** ClauseEnd is the first keyword position: any index with no keyword
      before it that is a keyword or the end is ClauseEnd. */
  lemma ClauseEndAt(ts: seq<Token>, lo: nat, kw: Keyword, j: nat)
    requires lo <= j <= |ts|
    requires forall k :: lo <= k < j ==> !Is(ts[k], kw)
    requires j < |ts| ==> Is(ts[j], kw)
    ensures ClauseEnd(ts, lo, kw) == j
  {
  }

  // ---------------------------------------------------------------------------
  // Names: the condition side

  function AddName(list: seq<string>, t: Token): seq<string> {
    match t.name
    case Some(v) => AddToCharList(list, v)
    case None => list
  }

  /** The name list after the tokens ts[lo..hi] were added to list, in order. */
  function AddNames(list: seq<string>, ts: seq<Token>, lo: nat, hi: nat): (r: seq<string>)
    requires lo <= hi <= |ts|
    ensures |list| <= |r| && r[..|list|] == list
    ensures NoDuplicates(list) ==> NoDuplicates(r)
    decreases hi
  {
    if hi == lo then list
    else
      var mid := AddNames(list, ts, lo, hi - 1);
      var r := AddName(mid, ts[hi - 1]);
      assert r[..|list|] == r[..|mid|][..|list|];
      r
  }

  /** Some token of ts[lo..hi] names a cluster. */
  ghost predicate AnyName(ts: seq<Token>, lo: nat, hi: nat)
    requires lo <= hi <= |ts|
  {
    exists k :: lo <= k < hi && ts[k].name.Some?
  }

  /** The name list holds what it held before and the non-empty name of every
      naming token of the range, and nothing else. */
  lemma {:induction false} AddNamesMembers(list: seq<string>, ts: seq<Token>, lo: nat, hi: nat, x: string)
    requires lo <= hi <= |ts|
    ensures x in AddNames(list, ts, lo, hi) <==>
            x in list || (x != "" && exists k :: lo <= k < hi && ts[k].name == Some(x))
    decreases hi
  {
    if hi > lo {
      AddNamesMembers(list, ts, lo, hi - 1, x);
      var mid := AddNames(list, ts, lo, hi - 1);
      assert AddNames(list, ts, lo, hi) == AddName(mid, ts[hi - 1]);
      if x != "" && exists k :: lo <= k < hi && ts[k].name == Some(x) {
        var k :| lo <= k < hi && ts[k].name == Some(x);
        if k < hi - 1 {
          assert x in mid;
        }
      }
    }
  }

  lemma AnyNameStep(ts: seq<Token>, lo: nat, hi: nat)
    requires lo <= hi < |ts|
    ensures AnyName(ts, lo, hi + 1) == (AnyName(ts, lo, hi) || ts[hi].name.Some?)
  {
  }

  lemma {:induction false} AddNamesSplit(list: seq<string>, ts: seq<Token>, lo: nat, mid: nat, hi: nat)
    requires lo <= mid <= hi <= |ts|
    ensures AddNames(list, ts, lo, hi) == AddNames(AddNames(list, ts, lo, mid), ts, mid, hi)
    decreases hi
  {
    if hi > mid {
      AddNamesSplit(list, ts, lo, mid, hi - 1);
    }
  }

  /** _set_cond: scans from start to the first "Set" token, adds each token's
      name to the list and reports whether any token named a cluster. The
      returned index is the one just before that "Set" token, else argc. */
  method SetCond(argv: seq<string>, start: nat, list: seq<string>) returns (next: int, names: seq<string>, isSet: bool)
    requires start <= |argv|
    ensures var ts := Lex(argv);
            var stop := ClauseEnd(ts, start, SetKw);
            && next == (if stop < |argv| then stop - 1 else |argv|)
            && names == AddNames(list, ts, start, stop)
            && isSet == AnyName(ts, start, stop)
  {
    ghost var ts := Lex(argv);
    names, isSet := list, false;
    var i: int := start;
    while i < |argv|
      invariant start <= i <= |argv|
      invariant forall k :: start <= k < i ==> !Is(ts[k], SetKw)
      invariant names == AddNames(list, ts, start, i)
      invariant isSet == AnyName(ts, start, i)
    {
      LexKeyword(argv, i);
      LexName(argv, i);
      var end := OptionEnd(argv[i]);
      if IsKeyword(argv[i], SetKw) {
        ClauseEndAt(ts, start, SetKw, i);
        i := i - 1;
        break;
      }
      AnyNameStep(ts, start, i);
      if end == 0 {
        assert ts[i].name == Some(argv[i]);
        names := AddToCharList(names, argv[i]);
        isSet := true;
      } else if PrefixCI(argv[i], "Names", 1) {
        assert ts[i].name == Some(argv[i][end..]);
        names := AddToCharList(names, argv[i][end..]);
        isSet := true;
      } else {
        // not a name: a diagnostic, the token is skipped
        assert ts[i].name == None;
      }
      i := i + 1;
    }
    if i == |argv| {
      ClauseEndAt(ts, start, SetKw, i);
    }
    next := i;
  }

  // ---------------------------------------------------------------------------
  // Limits: the assignment side

  predicate Sets(g: Grammar, t: Token, f: Field) {
    AssignOf(g, t).Some? && AssignOf(g, t).value.field == f
  }

  function Apply(l: Limits, a: Option<Assignment>): Limits {
    match a
    case Some(x) => l.With(x.field, x.value)
    case None => l
  }

  /** The limits after the tokens ts[lo..hi] were applied to l, in order. */
  function ApplyRun(g: Grammar, l: Limits, ts: seq<Token>, lo: nat, hi: nat): Limits
    requires lo <= hi <= |ts|
    decreases hi
  {
    if hi == lo then l else Apply(ApplyRun(g, l, ts, lo, hi - 1), AssignOf(g, ts[hi - 1]))
  }

  /** Some token of ts[lo..hi] assigns a limit. */
  ghost predicate AnyAssign(g: Grammar, ts: seq<Token>, lo: nat, hi: nat)
    requires lo <= hi <= |ts|
  {
    exists k :: lo <= k < hi && AssignOf(g, ts[k]).Some?
  }

  lemma AnyAssignStep(g: Grammar, ts: seq<Token>, lo: nat, hi: nat)
    requires lo <= hi < |ts|
    ensures AnyAssign(g, ts, lo, hi + 1) == (AnyAssign(g, ts, lo, hi) || AssignOf(g, ts[hi]).Some?)
  {
  }

  /** One step of the fold: field f takes the token's value when the token
      assigns f, and keeps its value otherwise. */
  lemma ApplyRunStep(g: Grammar, l: Limits, ts: seq<Token>, lo: nat, hi: nat, f: Field)
    requires lo < hi <= |ts|
    ensures ApplyRun(g, l, ts, lo, hi).Get(f) ==
            if Sets(g, ts[hi - 1], f) then AssignOf(g, ts[hi - 1]).value.value
            else ApplyRun(g, l, ts, lo, hi - 1).Get(f)
  {
  }

  /** A limit that no token of the range assigns keeps its value. */
  lemma {:induction false} UnassignedKept(g: Grammar, l: Limits, ts: seq<Token>, lo: nat, hi: nat, f: Field)
    requires lo <= hi <= |ts|
    requires forall k :: lo <= k < hi ==> !Sets(g, ts[k], f)
    ensures ApplyRun(g, l, ts, lo, hi).Get(f) == l.Get(f)
    decreases hi
  {
    if hi > lo {
      ApplyRunStep(g, l, ts, lo, hi, f);
      UnassignedKept(g, l, ts, lo, hi - 1, f);
    }
  }

  /** A limit ends up with the value of the last token of the range that
      assigns it. */
  lemma {:induction false} LastAssignmentWins(g: Grammar, l: Limits, ts: seq<Token>, lo: nat, hi: nat, f: Field, k: nat)
    requires lo <= k < hi <= |ts|
    requires Sets(g, ts[k], f)
    requires forall j :: k < j < hi ==> !Sets(g, ts[j], f)
    ensures ApplyRun(g, l, ts, lo, hi).Get(f) == AssignOf(g, ts[k]).value.value
    decreases hi
  {
    ApplyRunStep(g, l, ts, lo, hi, f);
    if k < hi - 1 {
      LastAssignmentWins(g, l, ts, lo, hi - 1, f, k);
    }
  }

  /** _set_rec: scans from start to the first "Where" token and applies each
      recognised "key=value" token to the record; tokens without '=' and
      unknown keys change nothing. isSet tells whether any field was assigned. */
  method SetRec(argv: seq<string>, start: nat, rec: Limits) returns (next: int, rec': Limits, isSet: bool)
    requires start <= |argv|
    ensures var ts := Lex(argv);
            var stop := ClauseEnd(ts, start, WhereKw);
            && next == (if stop < |argv| then stop - 1 else |argv|)
            && rec' == ApplyRun(SetLine, rec, ts, start, stop)
            && isSet == AnyAssign(SetLine, ts, start, stop)
  {
    ghost var ts := Lex(argv);
    rec', isSet := rec, false;
    var i: int := start;
    while i < |argv|
      invariant start <= i <= |argv|
      invariant forall k :: start <= k < i ==> !Is(ts[k], WhereKw)
      invariant rec' == ApplyRun(SetLine, rec, ts, start, i)
      invariant isSet == AnyAssign(SetLine, ts, start, i)
    {
      LexKeyword(argv, i);
      LexAssign(SetLine, argv, i);
      var end := OptionEnd(argv[i]);
      if IsKeyword(argv[i], WhereKw) {
        ClauseEndAt(ts, start, WhereKw, i);
        i := i - 1;
        break;
      }
      AnyAssignStep(SetLine, ts, start, i);
      if end == 0 {
        // no '=': a diagnostic, the token is skipped
        assert ts[i].setAssign == None;
      } else if PrefixCI(argv[i], "FairShare", 1) {
        assert ts[i].setAssign == Some(Assignment(FairShare, Atoi(argv[i][end..])));
        rec' := rec'.(fairshare := Atoi(argv[i][end..]));
        isSet := true;
      } else if PrefixCI(argv[i], "MaxJobs", 4) {
        assert ts[i].setAssign == Some(Assignment(MaxJobs, Atoi(argv[i][end..])));
        rec' := rec'.(maxJobs := Atoi(argv[i][end..]));
        isSet := true;
      } else if PrefixCI(argv[i], "MaxNodes", 4) {
        assert ts[i].setAssign == Some(Assignment(MaxNodesPerJob, Atoi(argv[i][end..])));
        rec' := rec'.(maxNodesPerJob := Atoi(argv[i][end..]));
        isSet := true;
      } else if PrefixCI(argv[i], "MaxWall", 4) {
        assert ts[i].setAssign == Some(Assignment(MaxWallDurationPerJob, Atoi(argv[i][end..])));
        rec' := rec'.(maxWallDurationPerJob := Atoi(argv[i][end..]));
        isSet := true;
      } else if PrefixCI(argv[i], "MaxCPUSecs=", 11) {
        assert ts[i].setAssign == Some(Assignment(MaxCpuSecsPerJob, Atoi(argv[i][end..])));
        rec' := rec'.(maxCpuSecsPerJob := Atoi(argv[i][end..]));
        isSet := true;
      } else {
        // no known key: a diagnostic, the token is skipped
        assert ts[i].setAssign == None;
      }
      i := i + 1;
    }
    if i == |argv| {
      ClauseEndAt(ts, start, WhereKw, i);
    }
    next := i;
  }

  /** The argument loop of sacctmgr_add_cluster: every token is a name, a
      limit or unknown; there are no clause keywords. The limits start unset. */
  method ParseAddArgs(argv: seq<string>) returns (names: seq<string>, limits: Limits, limitSet: bool)
    ensures names == AddNames([], Lex(argv), 0, |argv|)
    ensures limits == ApplyRun(AddLine, AllUnset, Lex(argv), 0, |argv|)
    ensures limitSet == AnyAssign(AddLine, Lex(argv), 0, |argv|)
  {
    ghost var ts := Lex(argv);
    names, limits, limitSet := [], AllUnset, false;
    var i := 0;
    while i < |argv|
      invariant 0 <= i <= |argv|
      invariant names == AddNames([], ts, 0, i)
      invariant limits == ApplyRun(AddLine, AllUnset, ts, 0, i)
      invariant limitSet == AnyAssign(AddLine, ts, 0, i)
    {
      LexName(argv, i);
      LexAssign(AddLine, argv, i);
      NameIsNotAssignment(AddLine, argv[i]);
      var end := OptionEnd(argv[i]);
      AnyAssignStep(AddLine, ts, 0, i);
      if end == 0 {
        assert ts[i].name == Some(argv[i][end..]) && ts[i].addAssign == None;
        names := AddToCharList(names, argv[i][end..]);
      } else if PrefixCI(argv[i], "FairShare", 1) {
        assert ts[i].addAssign == Some(Assignment(FairShare, Atoi(argv[i][end..]))) && ts[i].name == None;
        limits := limits.(fairshare := Atoi(argv[i][end..]));
        limitSet := true;
      } else if PrefixCI(argv[i], "MaxCPUSecs4", 4) {
        assert ts[i].addAssign == Some(Assignment(MaxCpuSecsPerJob, Atoi(argv[i][end..]))) && ts[i].name == None;
        limits := limits.(maxCpuSecsPerJob := Atoi(argv[i][end..]));
        limitSet := true;
      } else if PrefixCI(argv[i], "MaxJobs=", 4) {
        assert ts[i].addAssign == Some(Assignment(MaxJobs, Atoi(argv[i][end..]))) && ts[i].name == None;
        limits := limits.(maxJobs := Atoi(argv[i][end..]));
        limitSet := true;
      } else if PrefixCI(argv[i], "MaxNodes", 4) {
        assert ts[i].addAssign == Some(Assignment(MaxNodesPerJob, Atoi(argv[i][end..]))) && ts[i].name == None;
        limits := limits.(maxNodesPerJob := Atoi(argv[i][end..]));
        limitSet := true;
      } else if PrefixCI(argv[i], "MaxWall", 4) {
        assert ts[i].addAssign == Some(Assignment(MaxWallDurationPerJob, Atoi(argv[i][end..]))) && ts[i].name == None;
        limits := limits.(maxWallDurationPerJob := Atoi(argv[i][end..]));
        limitSet := true;
      } else if PrefixCI(argv[i], "Names", 1) {
        assert ts[i].name == Some(argv[i][end..]) && ts[i].addAssign == None;
        names := AddToCharList(names, argv[i][end..]);
      } else {
        // no known key: a diagnostic, the token is skipped
        assert ts[i].name == None && ts[i].addAssign == None;
      }
      i := i + 1;
    }
  }
}
