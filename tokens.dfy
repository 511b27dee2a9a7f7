/** What one command-line token is to cluster_functions.c: a clause keyword,
    a name for a condition, or a "key=value" limit assignment. The loops of
    the command match each token against these literals with strncasecmp;
    Classify records the outcome of all of them, once per token. */
module Tokens {
  import opened Common
  import opened Records

  datatype Keyword = WhereKw | SetKw

  /** The clause keywords: "Where" is matched over 5 characters, "Set" over 3. */
  predicate IsKeyword(tok: string, kw: Keyword) {
    match kw
    case WhereKw => PrefixCI(tok, "Where", 5)
    case SetKw => PrefixCI(tok, "Set", 3)
  }

  /** No token opens both clauses. */
  lemma KeywordsDisjoint(tok: string)
    ensures !(IsKeyword(tok, WhereKw) && IsKeyword(tok, SetKw))
  {
    assert Lower('W') == 'w' && Lower('S') == 's';
  }

  /** The name a token contributes to a name list: the whole of a token without
      '=', the value of a "Names=" token (matched over 1 character), else none. */
  function NameValue(tok: string): Option<string> {
    var end := OptionEnd(tok);
    if end == 0 then Some(tok)
    else if PrefixCI(tok, "Names", 1) then Some(tok[end..])
    else None
  }

  /** The two keyword tables: the argument line of Add, and a Set clause. */
  datatype Grammar = AddLine | SetLine

  datatype Assignment = Assignment(field: Field, value: int)

  /** The field a "key=value" token assigns and the value atoi gives, per table.
      Add matches the CPU limit as "MaxCPUSecs4" over 4 characters and a Set
      clause as "MaxCPUSecs=" over 11; the other prefixes are shared. */
  function Assign(g: Grammar, tok: string): Option<Assignment> {
    var end := OptionEnd(tok);
    if end == 0 then None
    else
      var v := Atoi(tok[end..]);
      match g
      case AddLine =>
        if PrefixCI(tok, "FairShare", 1) then Some(Assignment(FairShare, v))
        else if PrefixCI(tok, "MaxCPUSecs4", 4) then Some(Assignment(MaxCpuSecsPerJob, v))
        else if PrefixCI(tok, "MaxJobs=", 4) then Some(Assignment(MaxJobs, v))
        else if PrefixCI(tok, "MaxNodes", 4) then Some(Assignment(MaxNodesPerJob, v))
        else if PrefixCI(tok, "MaxWall", 4) then Some(Assignment(MaxWallDurationPerJob, v))
        else None
      case SetLine =>
        if PrefixCI(tok, "FairShare", 1) then Some(Assignment(FairShare, v))
        else if PrefixCI(tok, "MaxJobs", 4) then Some(Assignment(MaxJobs, v))
        else if PrefixCI(tok, "MaxNodes", 4) then Some(Assignment(MaxNodesPerJob, v))
        else if PrefixCI(tok, "MaxWall", 4) then Some(Assignment(MaxWallDurationPerJob, v))
        else if PrefixCI(tok, "MaxCPUSecs=", 11) then Some(Assignment(MaxCpuSecsPerJob, v))
        else None
  }

  /** A token never both names a cluster and assigns a limit: a name either
      has no '=' or starts with 'N', and every limit key starts with 'F' or 'M'. */
  lemma NameIsNotAssignment(g: Grammar, tok: string)
    ensures !(NameValue(tok).Some? && Assign(g, tok).Some?)
  {
    assert Lower('N') == 'n' && Lower('F') == 'f' && Lower('M') == 'm';
  }

  /** Everything the command's loops can find out about one token. */
  datatype Token = Token(kw: Option<Keyword>, name: Option<string>,
                         addAssign: Option<Assignment>, setAssign: Option<Assignment>)

  function Classify(tok: string): (t: Token)
    ensures t.kw == Some(WhereKw) <==> IsKeyword(tok, WhereKw)
    ensures t.kw == Some(SetKw) <==> IsKeyword(tok, SetKw)
    ensures t.name.Some? ==> t.addAssign.None? && t.setAssign.None?
  {
    KeywordsDisjoint(tok);
    NameIsNotAssignment(AddLine, tok);
    NameIsNotAssignment(SetLine, tok);
    Token(if IsKeyword(tok, WhereKw) then Some(WhereKw) else if IsKeyword(tok, SetKw) then Some(SetKw) else None,
          NameValue(tok), Assign(AddLine, tok), Assign(SetLine, tok))
  }

  /** The argument vector, token by token. */
  function Lex(argv: seq<string>): (ts: seq<Token>)
    ensures |ts| == |argv|
  {
    if |argv| == 0 then [] else [Classify(argv[0])] + Lex(argv[1..])
  }

  lemma {:induction false} LexAt(argv: seq<string>, i: nat)
    requires i < |argv|
    ensures Lex(argv)[i] == Classify(argv[i])
  {
    if i > 0 {
      LexAt(argv[1..], i - 1);
    }
  }

  /** The keyword of token i, as the loops test it. */
  lemma LexKeyword(argv: seq<string>, i: nat)
    requires i < |argv|
    ensures Lex(argv)[i].kw == Some(WhereKw) <==> IsKeyword(argv[i], WhereKw)
    ensures Lex(argv)[i].kw == Some(SetKw) <==> IsKeyword(argv[i], SetKw)
  {
    LexAt(argv, i);
  }

  /** The name token i contributes. */
  lemma LexName(argv: seq<string>, i: nat)
    requires i < |argv|
    ensures Lex(argv)[i].name == NameValue(argv[i])
  {
    LexAt(argv, i);
  }

  /** The assignment token i makes under each table. */
  lemma LexAssign(g: Grammar, argv: seq<string>, i: nat)
    requires i < |argv|
    ensures AssignOf(g, Lex(argv)[i]) == Assign(g, argv[i])
  {
    LexAt(argv, i);
  }

  predicate Is(t: Token, kw: Keyword) {
    t.kw == Some(kw)
  }

  /** The assignment a token makes under a table. */
  function AssignOf(g: Grammar, t: Token): Option<Assignment> {
    match g
    case AddLine => t.addAssign
    case SetLine => t.setAssign
  }
}
