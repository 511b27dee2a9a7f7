/** Helpers that cluster_functions.c calls but that live elsewhere in sacctmgr
    or in libc. Each is modelled on the assumption written on it. */
module Common {

  datatype Option<T> = None | Some(value: T)

  /** A sequence in which no element occurs twice. */
  ghost predicate NoDuplicates(s: seq<string>) {
    forall x :: multiset(s)[x] <= 1
  }

  /** ASCII tolower, the folding strncasecmp applies. */
  function Lower(c: char): char {
    if 'A' <= c <= 'Z' then (c as int - 'A' as int + 'a' as int) as char else c
  }

  /** strncasecmp(s, kw, n) == 0 for a keyword at least n characters long,
      compared one character at a time as strncasecmp does. */
  predicate PrefixCI(s: string, kw: string, n: nat)
    requires n <= |kw|
  {
    n == 0 || (|s| > 0 && Lower(s[0]) == Lower(kw[0]) && PrefixCI(s[1..], kw[1..], n - 1))
  }

  /** The match holds exactly when s has at least n characters and agrees
      with kw on the first n of them up to case. */
  lemma {:induction false} PrefixCIMeans(s: string, kw: string, n: nat)
    requires n <= |kw|
    ensures PrefixCI(s, kw, n) <==> n <= |s| && forall k :: 0 <= k < n ==> Lower(s[k]) == Lower(kw[k])
  {
    if n > 0 && |s| > 0 {
      PrefixCIMeans(s[1..], kw[1..], n - 1);
      assert forall k :: 0 < k < n && k < |s| ==> s[1..][k - 1] == s[k] && kw[1..][k - 1] == kw[k];
    }
  }

  /** parse_option_end (assumed): the offset just past the first '=', or 0 when
      the token has no '='. */
  function OptionEnd(s: string): (end: nat)
    ensures end <= |s|
    ensures end == 0 <==> '=' !in s
    ensures end > 0 ==> s[end - 1] == '=' && '=' !in s[..end - 1]
  {
    if |s| == 0 then 0
    else if s[0] == '=' then 1
    else
      var e := OptionEnd(s[1..]);
      if e == 0 then 0
      else
        assert s[..e] == [s[0]] + s[1..][..e - 1];
        e + 1
  }

  predicate IsSpace(c: char) {
    c == ' ' || c == '\t' || c == '\n' || c == '\r' || c == '\U{000B}' || c == '\U{000C}'
  }

  function SkipSpace(s: string): string {
    if |s| > 0 && IsSpace(s[0]) then SkipSpace(s[1..]) else s
  }

  /** The value of the leading decimal digits of s, accumulated onto acc. */
  function DigitPrefix(s: string, acc: int): int {
    if |s| > 0 && '0' <= s[0] <= '9' then DigitPrefix(s[1..], acc * 10 + (s[0] as int - '0' as int))
    else acc
  }

  /** atoi (assumed): leading white space, an optional sign, then decimal
      digits; the C overflow behaviour is not modelled. */
  function Atoi(s: string): int {
    var t := SkipSpace(s);
    if |t| > 0 && t[0] == '-' then -DigitPrefix(t[1..], 0)
    else if |t| > 0 && t[0] == '+' then DigitPrefix(t[1..], 0)
    else DigitPrefix(t, 0)
  }

  predicate AllDigits(s: string) {
    forall i :: 0 <= i < |s| ==> '0' <= s[i] <= '9'
  }

  predicate AllSpace(s: string) {
    forall i :: 0 <= i < |s| ==> IsSpace(s[i])
  }

  /** The shortest decimal rendering of n, the independent reference Atoi is
      checked against. */
  function Decimal(n: nat): (s: string)
    ensures |s| > 0 && AllDigits(s)
  {
    var d := ['0' + (n % 10) as char];
    if n < 10 then d else Decimal(n / 10) + d
  }

  lemma {:induction false} DigitPrefixAppend(d: string, r: string, acc: int)
    requires AllDigits(d)
    ensures DigitPrefix(d + r, acc) == DigitPrefix(r, DigitPrefix(d, acc))
    decreases |d|
  {
    if d == [] {
      assert d + r == r;
    } else {
      var acc' := acc * 10 + (d[0] as int - '0' as int);
      assert (d + r)[0] == d[0] && (d + r)[1..] == d[1..] + r;
      assert DigitPrefix(d + r, acc) == DigitPrefix(d[1..] + r, acc');
      assert DigitPrefix(d, acc) == DigitPrefix(d[1..], acc');
      DigitPrefixAppend(d[1..], r, acc');
    }
  }

  lemma {:induction false} DigitPrefixDecimal(n: nat)
    ensures DigitPrefix(Decimal(n), 0) == n
  {
    if n >= 10 {
      var d := ['0' + (n % 10) as char];
      DigitPrefixDecimal(n / 10);
      DigitPrefixAppend(Decimal(n / 10), d, 0);
      assert DigitPrefix(d, n / 10) == n / 10 * 10 + n % 10;
    }
  }

  /** The digits of n followed by anything that is not a digit read as n. */
  lemma DigitsThen(n: nat, rest: string)
    requires rest == [] || !('0' <= rest[0] <= '9')
    ensures DigitPrefix(Decimal(n) + rest, 0) == n
  {
    DigitPrefixDecimal(n);
    DigitPrefixAppend(Decimal(n), rest, 0);
  }

  lemma {:induction false} SkipSpaceAppend(ws: string, t: string)
    requires AllSpace(ws) && (t == [] || !IsSpace(t[0]))
    ensures SkipSpace(ws + t) == t
    decreases |ws|
  {
    if ws == [] {
      assert ws + t == t;
    } else {
      assert (ws + t)[1..] == ws[1..] + t;
      SkipSpaceAppend(ws[1..], t);
    }
  }

  /** One sign character in front of the digits. */
  lemma SignedDigits(ws: string, sign: char, n: nat, rest: string)
    requires AllSpace(ws) && sign in "+-"
    requires rest == [] || !('0' <= rest[0] <= '9')
    ensures Atoi(ws + [sign] + Decimal(n) + rest) == if sign == '-' then -(n as int) else n
  {
    var t := [sign] + (Decimal(n) + rest);
    assert ws + [sign] + Decimal(n) + rest == ws + t;
    assert t[0] == sign && t[1..] == Decimal(n) + rest;
    SkipSpaceAppend(ws, t);
    DigitsThen(n, rest);
  }

  /** atoi reads back what it is given after the '=': leading white space is
      skipped, then one optional sign, then the decimal digits up to the
      first character that is not one. */
  lemma AtoiDecimal(ws: string, n: nat, rest: string)
    requires AllSpace(ws)
    requires rest == [] || !('0' <= rest[0] <= '9')
    ensures Atoi(ws + Decimal(n) + rest) == n
    ensures Atoi(ws + "-" + Decimal(n) + rest) == -(n as int)
    ensures Atoi(ws + "+" + Decimal(n) + rest) == n
  {
    var t := Decimal(n) + rest;
    assert ws + Decimal(n) + rest == ws + t;
    SkipSpaceAppend(ws, t);
    DigitsThen(n, rest);
    SignedDigits(ws, '-', n, rest);
    SignedDigits(ws, '+', n, rest);
  }

  /** addto_char_list (assumed): appends a non-empty name that the list does not
      hold yet; comma splitting and quote stripping are not modelled. */
  function AddToCharList(list: seq<string>, name: string): (r: seq<string>)
    ensures |list| <= |r| && r[..|list|] == list
    ensures forall x :: x in r <==> x in list || (x == name && name != "")
    ensures NoDuplicates(list) ==> NoDuplicates(r)
  {
    if name == "" || name in list then list
    else
      assert (list + [name])[..|list|] == list;
      list + [name]
  }
}
