# sacctmgr cluster commands, modelled in Dafny

This project models `src/sacctmgr/cluster_functions.c` of SLURM. That file
implements the `sacctmgr add|list|modify|delete cluster` commands, which
work in two steps:

- They read an argument vector into a name condition (`_set_cond`) and a
  record of default limits (`_set_rec`, and the argument loop of
  `sacctmgr_add_cluster`).
- They send the result to the accounting storage plugin, ask for
  confirmation, and commit or roll back. On a commit, `add` and `delete` also
  update sacctmgr's in-memory mirrors of the database: the cluster list and
  the association list.

Layout:

- `common.dfy` (`Common`): the helpers the file calls but does not define:
  - `strncasecmp` over a fixed length (`PrefixCI`);
  - `parse_option_end` (`OptionEnd`);
  - `atoi`;
  - `addto_char_list` (`AddToCharList`).

  Each one states the assumption it is modelled on.
- `records.dfy` (`Records`): the data and the lookups.
  - The limits record and the cluster and association records.
  - The log entries for the calls into the storage plugin.
  - `sacctmgr_find_cluster` and `sacctmgr_find_root_assoc`.
  - The two cascades of `_remove_existing_clusters`.
  - The pairing invariant `Paired`: cluster names are unique, and the
    multiset of root-association cluster names equals the multiset of
    cluster names.
- `tokens.dfy` (`Tokens`): what one token is to the loops. A token can be a
  clause keyword, a name, or a `key=value` assignment under the Add table or
  the Set table. `Lex` classifies the whole vector.
- `cluster_parse.dfy` (`ClusterParse`): `_set_cond`, `_set_rec` and Add's
  argument loop. Each is an imperative loop over `argv`, proved equal to a
  fold over a range of the lexed tokens.
- `modify_dispatch.dfy` (`ModifyDispatch`): the Where/Set dispatch loop of
  `sacctmgr_modify_cluster`.
  - The loop is proved equal to an automaton (`ModifyScanAt`) that reads one
    token at a time.
  - The lemmas state, token by token, what the resulting condition and patch
    contain.
- `cluster_functions.dfy` (`ClusterFunctions`): class `Session`. It holds the
  two mirrors and a log of the calls made into the storage plugin. The
  commands are methods of the class.

The storage plugin's answers become method parameters:

- the return code of `acct_storage_g_add_clusters`;
- the list returned by the get, modify and remove calls (`None` for NULL).

The `commit_check` answers are `bool` parameters. Each call into the plugin
is appended to `log`; this includes `acct_storage_g_commit(db_conn, 1|0)`,
logged as `Commit(true|false)`. The contracts can therefore say when the
plugin is, or is not, called, and whether a commit or a rollback was issued.

Where the code departs from a plain reading of its intent, the model follows
the code:

- `_set_cond` ends only at `Set`. A bare `Where` inside a condition run has
  no `=`, so it is added as a cluster name. `RoleOf` with clause `InWhere`
  encodes this.
- Add recognises the CPU limit by the 4-character prefix of
  `"MaxCPUSecs4"`. `_set_rec` needs the 11 characters of `"MaxCPUSecs="`.
  Add spells the MaxJobs key `"MaxJobs="`, but compares only its first 4
  characters.
- Modify's record starts all zero. Modify turns every limit that is not
  positive into -1 before sending it, whether or not the limit was given.
- `_remove_existing_clusters` reads `cluster->name` even when
  `sacctmgr_find_cluster` returned NULL. The model requires (`AllFound`)
  that each returned name is found when its turn comes.
  `AllFoundWhenDistinct` shows this holds when the returned names are
  distinct and all in the mirror.

## Model

| member | source | states |
|---|---|---|
| Common.PrefixCIMeans | src/sacctmgr/cluster_functions.c:52 | `strncasecmp(s, kw, n) == 0` holds exactly when s has at least n characters and agrees with kw on the first n of them up to ASCII case |
| Common.OptionEnd | src/sacctmgr/cluster_functions.c:51 | parse_option_end (assumed) is 0 exactly when the token has no '='; otherwise it is the offset just past the first '=' |
| Common.AddToCharList | src/sacctmgr/cluster_functions.c:56 | addto_char_list (assumed) keeps the list as a prefix, adds exactly the new non-empty name, and keeps the list free of duplicates |
| Common.AtoiDecimal | src/sacctmgr/cluster_functions.c:87-101 | atoi (assumed) reads back the value written after the '=': leading white space is skipped, one optional sign is applied, and the decimal digits are read up to the first character that is not one; the same holds for Add's calls at lines 161-173 |
| Records.FindCluster | src/sacctmgr/cluster_functions.c:128 | sacctmgr_find_cluster (assumed) gives the first cluster with that name, and nothing exactly when no cluster has it |
| Records.FindRootAssoc | src/sacctmgr/cluster_functions.c:132 | sacctmgr_find_root_assoc (assumed) gives the first association with account root for the cluster, and nothing exactly when there is none |
| Records.RemoveNamedMembers | src/sacctmgr/cluster_functions.c:128-130 | with unique names, one turn leaves exactly the clusters of the other names, and the names stay unique |
| Records.RemoveEachMembers | src/sacctmgr/cluster_functions.c:126-135 | with unique names, the cascade leaves exactly the clusters whose name was not returned |
| Records.RemoveKeepsPaired | src/sacctmgr/cluster_functions.c:126-135 | the cascade keeps every cluster paired with exactly one root association |
| Records.PairedRootsUnique | src/sacctmgr/cluster_functions.c:132-134 | under the pairing no cluster has two root associations, so each turn's sacctmgr_find_root_assoc names the only one |
| Records.RemoveRootOfMembers | src/sacctmgr/cluster_functions.c:132-134 | one turn removes the root association of that name, if there is one, and no other association |
| Records.RemoveRootsMembers | src/sacctmgr/cluster_functions.c:126-135 | with at most one root association per cluster, the cascade leaves exactly the associations that are not the root association of a returned name |
| Records.AllFoundWhenDistinct | src/sacctmgr/cluster_functions.c:127-132 | when the returned names are distinct and all in the mirror, every lookup of the cascade finds its cluster |
| Records.StagedMembers | src/sacctmgr/cluster_functions.c:191-209 | Add stages a record exactly for each listed name that the mirror does not hold, and each carries the shared limits |
| Records.StagedNames | src/sacctmgr/cluster_functions.c:191-209 | no name is staged more often than it is listed, and no staged name is in the mirror |
| Records.AddKeepsPaired | src/sacctmgr/cluster_functions.c:232-247 | appending the staged clusters and their root associations keeps the pairing, given distinct names |
| Tokens.KeywordsDisjoint | src/sacctmgr/cluster_functions.c:324-331 | no token matches both "Where" over 5 characters and "Set" over 3 |
| Tokens.NameIsNotAssignment | src/sacctmgr/cluster_functions.c:156-178 | no token both contributes a name and assigns a limit, under either keyword table |
| Tokens.Classify | src/sacctmgr/cluster_functions.c:52 | a token's keyword is Where or Set exactly when the prefix tests match, and a naming token assigns nothing |
| Tokens.LexAt | src/sacctmgr/cluster_functions.c:50 | token i of the lexed vector is the classification of argv[i] |
| ClusterParse.ClauseEnd | src/sacctmgr/cluster_functions.c:50-54 | the end of a run is the first keyword at or after its start, or argc |
| ClusterParse.AddNamesMembers | src/sacctmgr/cluster_functions.c:55-62 | the name list ends up holding what it held, plus the non-empty name of each naming token of the run, and nothing else |
| ClusterParse.SetCond | src/sacctmgr/cluster_functions.c:43-69 | _set_cond stops before the first "Set" (else at argc); it adds the names of the run and returns set exactly when some token of the run names a cluster |
| ClusterParse.UnassignedKept | src/sacctmgr/cluster_functions.c:84-105 | a limit that no token of the run assigns keeps its value |
| ClusterParse.LastAssignmentWins | src/sacctmgr/cluster_functions.c:84-105 | a limit ends with the value of the last token of the run that assigns it |
| ClusterParse.SetRec | src/sacctmgr/cluster_functions.c:71-111 | _set_rec stops before the first "Where" (else at argc); it applies each recognised assignment of the run to the record and returns set exactly when one occurred |
| ClusterParse.ParseAddArgs | src/sacctmgr/cluster_functions.c:147-180 | Add's loop collects the names of all tokens and applies all Add-table assignments to limits that start at -1; limit_set says whether any occurred |
| ModifyDispatch.WhereRun | src/sacctmgr/cluster_functions.c:324-327 | a condition run of the automaton computes what _set_cond computes over it |
| ModifyDispatch.SetRun | src/sacctmgr/cluster_functions.c:328-331 | a Set clause of the automaton computes what _set_rec computes over it |
| ModifyDispatch.LeadingRun | src/sacctmgr/cluster_functions.c:332-334 | a leading run without a keyword computes what _set_cond computes from the first token |
| ModifyDispatch.ClauseStepScan | src/sacctmgr/cluster_functions.c:323-336 | one clause from a dispatch position takes the automaton to the next dispatch position, in the state of that clause |
| ModifyDispatch.DispatchFromScan | src/sacctmgr/cluster_functions.c:323-336 | clause by clause and token by token, the dispatch ends in the same state |
| ModifyDispatch.ClauseStop | src/sacctmgr/cluster_functions.c:323-336 | each clause ends strictly after the position it starts at, so the loop advances |
| ModifyDispatch.DispatchClause | src/sacctmgr/cluster_functions.c:324-335 | one turn of the loop hands the clause to _set_cond or _set_rec, and sets cond_set or rec_set when they report a change |
| ModifyDispatch.ParseModifyArgs | src/sacctmgr/cluster_functions.c:323-336 | the dispatch loop ends with the automaton's condition, patch and flags |
| ModifyDispatch.RecSetMeans | src/sacctmgr/cluster_functions.c:323-338 | rec_set holds exactly when some token of a Set clause assigns a known limit |
| ModifyDispatch.CondSetMeans | src/sacctmgr/cluster_functions.c:323-343 | cond_set holds exactly when some condition token names a cluster |
| ModifyDispatch.ModifyNamesMembers | src/sacctmgr/cluster_functions.c:323-336 | Modify's condition holds exactly the non-empty names of its condition tokens |
| ModifyDispatch.PatchUntouched | src/sacctmgr/cluster_functions.c:314-336 | a limit that no Set-clause token assigns stays 0, as xmalloc left it |
| ModifyDispatch.PatchLastAssignmentWins | src/sacctmgr/cluster_functions.c:323-336 | a limit of the patch has the value of the last Set-clause token that assigns it |
| ClusterFunctions.Normalize | src/sacctmgr/cluster_functions.c:356-379 | a limit that is not positive becomes -1, and a positive one is kept |
| ClusterFunctions.NormalizeRange | src/sacctmgr/cluster_functions.c:356-379 | after the normalisation every limit is -1 or positive, and normalising again changes nothing |
| ClusterFunctions.AllFoundPrefix | src/sacctmgr/cluster_functions.c:127-132 | if every lookup of a returned list succeeds, every lookup of each prefix of it does too |
| ClusterFunctions.CascadeAt | src/sacctmgr/cluster_functions.c:127-135 | turn k of the cascade finds its cluster, and removes that cluster and its root association |
| ClusterFunctions.Session.RemoveExistingClusters | src/sacctmgr/cluster_functions.c:113-137 | without a list, nothing changes; otherwise both mirrors lose, in turn, the cluster and the root association of each returned name; the pairing is kept |
| ClusterFunctions.Session.StageClusters | src/sacctmgr/cluster_functions.c:188-211 | the staged batch is one record per listed name not in the cluster mirror, in list order, with the shared limits |
| ClusterFunctions.Session.AppendStaged | src/sacctmgr/cluster_functions.c:233-247 | the commit appends the batch to the cluster mirror, and a root association with the same limits per cluster to the association mirror |
| ClusterFunctions.Session.AddCluster | src/sacctmgr/cluster_functions.c:139-257 | no name: error, with no plugin call and no change; otherwise the batch is sent and rc is the plugin's; on success confirm gives commit(1) and both mirrors grow, and decline gives commit(0) and no change; failure gives no commit and no change; the pairing is kept |
| ClusterFunctions.Session.ListCluster | src/sacctmgr/cluster_functions.c:259-279 | the plugin is asked for the leading condition; a NULL answer is an error; the mirrors never change |
| ClusterFunctions.Session.ModifyCluster | src/sacctmgr/cluster_functions.c:310-409 | nothing to set: error with no plugin call; no condition and declined: success with no plugin call; otherwise the normalised patch is sent, a non-empty answer is committed or rolled back as confirmed (success), and an empty or NULL answer is an error; the mirrors never change |
| ClusterFunctions.Session.DeleteCluster | src/sacctmgr/cluster_functions.c:411-458 | no condition: error, no plugin call; empty name list: success, no plugin call; otherwise a remove call, and a non-empty answer gives commit(1) and the cascade on confirm, commit(0) and no change on decline; an empty answer is an error; the pairing is kept |

## Left out

- Output: all `printf` text, the preview of defaults in Add and Modify, and the `print_field_t` table built by `sacctmgr_list_cluster` (lines 281-306). They are display only.
- The storage plugin (`acct_storage_g_*`), `db_conn` and `my_uid`. What the plugin returns is a method parameter, and each call is recorded in `Session.log`. Its semantics are not modelled.
- The `commit_check` prompts. Each answer is a `bool` parameter.
- Memory management: `xmalloc`, `xstrdup`, `list_create`, `list_destroy`, iterators and `destroy_*`. Records are immutable values, so the aliasing between `cluster_list` and the mirror after Add's commit loop is not captured.
- Common.Atoi: overflow is not modelled. Leading white space, one sign and decimal digits are, and `Common.AtoiDecimal` states them.
- Common.AddToCharList: comma splitting and quote stripping are not modelled. A name is appended only when it is not empty and not already present, compared exactly.
- Records.FindCluster: the search is modelled as exact, case-sensitive, first-match comparison. The real `sacctmgr_find_cluster` is not part of this model.
- Limits are unbounded integers, with -1 standing for the `uint32_t` value `-1` read back through `(int)`. Wrap-around of values outside the 32-bit range is not modelled.
- Records.AllFound: the NULL dereference at line 132 is a precondition of `Session.RemoveExistingClusters` and `Session.DeleteCluster`. The crash that would otherwise happen is not modelled.
- ClusterParse.SetCond: requires `start <= argc`. The callers in this file always pass 0, or an index at most argc.
- ClusterParse.SetRec: requires `start <= argc`, as for SetCond.
- ModifyDispatch.DispatchClause: this method models the body of the `for` loop at lines 324-335. It is split out of ParseModifyArgs only to keep each proof small; the loop calls it once per turn.
- ClusterFunctions.Session.ListCluster: the clusters the plugin returns are only printed, so the model keeps only whether the answer was NULL.
- The `limit_set` flag of Add (`ParseAddArgs.limitSet`) is computed but only controls output, so AddCluster does not use it.
