/**
  * The command line: reading `-conf`/`-job` values and flags, stripping quotes a user pasted
  * around a value, turning a selection such as `1\3\5` or `apps:web\3` into jobs, and the
  * answer to a yes/no prompt.
  */
module Cli {
  import opened Wrappers
  import opened Text
  import opened CompositeConfigLoader

  /** The character between the pieces of a job selection. */
  const Separator: char := '\\'

  /** `Integer.MAX_VALUE`. */
  const MaxInt: int := 0x7fff_ffff

  // ---------------------------------------------------------------- arguments

  /** `hasFlag(args, flag)`. */
  method HasFlag(args: seq<string>, flag: string) returns (found: bool)
    ensures found <==> flag in args
  {
    for i := 0 to |args|
      invariant flag !in args[..i]
    {
      assert args[..i + 1] == args[..i] + [args[i]];
      if args[i] == flag {
        return true;
      }
    }
    assert args[..|args|] == args;
    return false;
  }

  /** `argValue(args, key)`: the argument after the first `key`, unless that `key` is the last argument. */
  method ArgValue(args: seq<string>, key: string) returns (value: Option<string>)
    ensures value.None? <==> forall i :: 0 <= i < |args| - 1 ==> args[i] != key
    ensures value.Some? ==> exists i :: 0 <= i < |args| - 1 && args[i] == key && key !in args[..i] && value.value == args[i + 1]
  {
    for i := 0 to |args|
      invariant forall j :: 0 <= j < i && j < |args| - 1 ==> args[j] != key
    {
      if args[i] == key && i + 1 < |args| {
        assert key !in args[..i];
        return Some(args[i + 1]);
      }
    }
    return None;
  }

  // ---------------------------------------------------------------- quotes

  predicate IsQuote(c: char) {
    c == '"' || c == '\''
  }

  /**
    * `trimQuotes` as written: the trimmed value loses a leading and a trailing quote of the
    * same kind. A lone quote character passes both tests and `substring(1, 0)` throws.
    */
  function TrimQuotesAsWritten(s: string): (r: Result<string, string>)
    ensures r.Err? ==> r.error == Trim(s) && |Trim(s)| == 1 && IsQuote(Trim(s)[0])
    ensures r.Ok? ==> r.value == Trim(s) || (|Trim(s)| >= 2 && IsQuote(Trim(s)[0]) && Trim(s) == [Trim(s)[0]] + r.value + [Trim(s)[0]])
  {
    var t := Trim(s);
    if t != [] && ((t[0] == '"' && t[|t| - 1] == '"') || (t[0] == '\'' && t[|t| - 1] == '\'')) then
      if |t| < 2 then Err(t) else Ok(t[1..|t| - 1])
    else Ok(t)
  }

  /** A value wrapped in a matching pair of quotes loses them. */
  function Unquote(t: string): (r: string)
    ensures |r| <= |t|
  {
    if |t| >= 2 && IsQuote(t[0]) && t[|t| - 1] == t[0] then t[1..|t| - 1] else t
  }

  /** `trimQuotes` as intended: a lone quote character is kept like any other unquoted value. */
  function TrimQuotes(s: string): (r: string)
    ensures |r| <= |s|
    ensures r == Trim(s) || (|Trim(s)| >= 2 && IsQuote(Trim(s)[0]) && Trim(s) == [Trim(s)[0]] + r + [Trim(s)[0]])
  {
    Unquote(Trim(s))
  }

  /** The only input on which the two differ is a lone quote, where the original throws. */
  lemma TrimQuotesAgree(s: string)
    ensures TrimQuotesAsWritten(s).Err? <==> |Trim(s)| == 1 && IsQuote(Trim(s)[0])
    ensures TrimQuotesAsWritten(s).Ok? ==> TrimQuotesAsWritten(s).value == TrimQuotes(s)
  {
  }

  /** The input `"` (a single double quote) makes the original throw. */
  lemma LoneQuoteThrows()
    ensures TrimQuotesAsWritten("\"").Err?
    ensures TrimQuotes("\"") == "\""
  {
    TrimUnpadded("\"");
  }

  lemma UnquoteQuoted(x: string, q: char)
    requires IsQuote(q)
    ensures Unquote([q] + x + [q]) == x
  {
    var s := [q] + x + [q];
    assert s[1..|s| - 1] == x;
  }

  /** Quoting a value and stripping the quotes gives the value back, whatever it holds. */
  lemma TrimQuotesRoundTrip(x: string, q: char)
    requires IsQuote(q)
    ensures TrimQuotes([q] + x + [q]) == x
  {
    UnquoteQuoted(x, q);
    TrimUnpadded([q] + x + [q]);
  }

  /** A value that is already trimmed and not wrapped in quotes passes unchanged. */
  lemma TrimQuotesUnquoted(s: string)
    requires s == [] || (!IsTrimmable(s[0]) && !IsTrimmable(s[|s| - 1]))
    requires |s| < 2 || !IsQuote(s[0]) || s[|s| - 1] != s[0]
    ensures TrimQuotes(s) == s
  {
    TrimUnpadded(s);
    assert Unquote(s) == s;
  }

  // ---------------------------------------------------------------- numbers

  predicate IsDigit(c: char) {
    '0' <= c <= '9'
  }

  /** `token.matches("\\d+")`. */
  predicate IsNumber(s: string) {
    s != [] && forall i :: 0 <= i < |s| ==> IsDigit(s[i])
  }

  /** The value of a run of decimal digits, before `Integer.parseInt` checks its range. */
  function DecimalValue(s: string): nat
    requires forall i :: 0 <= i < |s| ==> IsDigit(s[i])
  {
    if s == [] then 0
    else
      assert IsDigit(s[|s| - 1]);
      DecimalValue(s[..|s| - 1]) * 10 + (s[|s| - 1] as int - '0' as int)
  }

  /** `n` in decimal, as the job list numbers its entries. */
  function Decimal(n: nat): (r: string)
    ensures IsNumber(r)
  {
    var d := (n % 10 + '0' as int) as char;
    if n < 10 then [d] else Decimal(n / 10) + [d]
  }

  /** Reading back a number written in decimal gives the number. */
  lemma {:induction false} DecimalRoundTrip(n: nat)
    ensures DecimalValue(Decimal(n)) == n
  {
    if n >= 10 {
      DecimalRoundTrip(n / 10);
      var r := Decimal(n);
      assert r[..|r| - 1] == Decimal(n / 10);
    }
  }

  // ---------------------------------------------------------------- names

  /** The position of the first job displayed as `token`. */
  function FirstDisplay(token: string, jobs: seq<NamedJob>): (r: Option<nat>)
    ensures r.None? <==> forall j :: 0 <= j < |jobs| ==> jobs[j].displayName != token
    ensures r.Some? ==> r.value < |jobs| && jobs[r.value].displayName == token
    ensures r.Some? ==> forall j :: 0 <= j < r.value ==> jobs[j].displayName != token
  {
    if jobs == [] then None
    else if jobs[0].displayName == token then Some(0)
    else
      match FirstDisplay(token, jobs[1..])
      case None => None
      case Some(k) => Some(k + 1)
  }

  /** The position of the first job displayed as `token` up to ASCII case. */
  function FirstLower(token: string, jobs: seq<NamedJob>): (r: Option<nat>)
    ensures r.None? <==> forall j :: 0 <= j < |jobs| ==> ToLower(jobs[j].displayName) != ToLower(token)
    ensures r.Some? ==> r.value < |jobs| && ToLower(jobs[r.value].displayName) == ToLower(token)
    ensures r.Some? ==> forall j :: 0 <= j < r.value ==> ToLower(jobs[j].displayName) != ToLower(token)
  {
    if jobs == [] then None
    else if ToLower(jobs[0].displayName) == ToLower(token) then Some(0)
    else
      match FirstLower(token, jobs[1..])
      case None => None
      case Some(k) => Some(k + 1)
  }

  /** The positions of the jobs named `token` in their include, in increasing order. */
  function NameMatches(token: string, jobs: seq<NamedJob>): (r: seq<nat>)
    ensures forall k: nat :: k in r <==> k < |jobs| && jobs[k].jobName == token
    ensures forall a, b :: 0 <= a < b < |r| ==> r[a] < r[b]
  {
    if jobs == [] then []
    else
      var n := |jobs| - 1;
      var prev := NameMatches(token, jobs[..n]);
      assert forall k: nat :: k < n ==> jobs[..n][k] == jobs[k];
      assert forall a :: 0 <= a < |prev| ==> prev[a] in prev;
      if jobs[n].jobName == token then prev + [n] else prev
  }

  lemma {:induction false} NameMatchesGrow(token: string, jobs: seq<NamedJob>, i: nat)
    requires i <= |jobs|
    ensures |NameMatches(token, jobs[..i])| <= |NameMatches(token, jobs)|
    decreases |jobs| - i
  {
    if i < |jobs| {
      NameMatchesGrow(token, jobs, i + 1);
      assert jobs[..i + 1][..i] == jobs[..i];
    } else {
      assert jobs[..i] == jobs;
    }
  }

  /**
    * `findJobByName(token, allJobs)`: an exact display name first; then a job name, which
    * must be unique (two jobs of that name give nothing); then a display name up to case.
    */
  function FindByName(token: string, jobs: seq<NamedJob>): (r: Option<NamedJob>)
    ensures r.Some? ==> r.value in jobs
  {
    var d := FirstDisplay(token, jobs);
    if d.Some? then Some(jobs[d.value])
    else
      var m := NameMatches(token, jobs);
      if |m| == 1 then
        assert m[0] in m;
        Some(jobs[m[0]])
      else if |m| >= 2 then None
      else
        var c := FirstLower(token, jobs);
        if c.Some? then Some(jobs[c.value]) else None
  }

  /** An exact display name wins over everything else: its first holder is chosen. */
  lemma ExactDisplayFirst(token: string, jobs: seq<NamedJob>, i: nat)
    requires i < |jobs| && jobs[i].displayName == token
    requires forall j :: 0 <= j < i ==> jobs[j].displayName != token
    ensures FindByName(token, jobs) == Some(jobs[i])
  {
    assert FirstDisplay(token, jobs).Some?;
  }

  lemma NoNameMatches(token: string, jobs: seq<NamedJob>)
    requires forall j :: 0 <= j < |jobs| ==> jobs[j].jobName != token
    ensures NameMatches(token, jobs) == []
  {
    var m := NameMatches(token, jobs);
    assert forall a :: 0 <= a < |m| ==> m[a] in m;
  }

  /** A token that no job carries, as display name, job name or display name up to case, selects nothing. */
  lemma NoMatchNone(token: string, jobs: seq<NamedJob>)
    requires forall j :: 0 <= j < |jobs| ==> jobs[j].displayName != token && jobs[j].jobName != token
    requires forall j :: 0 <= j < |jobs| ==> ToLower(jobs[j].displayName) != ToLower(token)
    ensures FindByName(token, jobs) == None
  {
    NoNameMatches(token, jobs);
  }

  /** A job name held by one job only is matched at that position alone. */
  lemma {:induction false} NameMatchesOnly(token: string, jobs: seq<NamedJob>, i: nat)
    requires i < |jobs| && jobs[i].jobName == token
    requires forall j :: 0 <= j < |jobs| && j != i ==> jobs[j].jobName != token
    ensures NameMatches(token, jobs) == [i]
    decreases |jobs|
  {
    var n := |jobs| - 1;
    if n == i {
      NoNameMatches(token, jobs[..n]);
    } else {
      NameMatchesOnly(token, jobs[..n], i);
    }
  }

  /** Without a display-name match, a job name held by one job selects that job. */
  lemma UniqueJobName(token: string, jobs: seq<NamedJob>, i: nat)
    requires forall j :: 0 <= j < |jobs| ==> jobs[j].displayName != token
    requires i < |jobs| && jobs[i].jobName == token
    requires forall j :: 0 <= j < |jobs| && j != i ==> jobs[j].jobName != token
    ensures FindByName(token, jobs) == Some(jobs[i])
  {
    NameMatchesOnly(token, jobs, i);
  }

  /** Without a display-name match, a job name held by two jobs selects nothing, even up to case. */
  lemma AmbiguousJobName(token: string, jobs: seq<NamedJob>, i: nat, k: nat)
    requires forall j :: 0 <= j < |jobs| ==> jobs[j].displayName != token
    requires i < k < |jobs| && jobs[i].jobName == token && jobs[k].jobName == token
    ensures FindByName(token, jobs) == None
  {
    var m := NameMatches(token, jobs);
    assert i in m && k in m;
    var a :| 0 <= a < |m| && m[a] == i;
    var b :| 0 <= b < |m| && m[b] == k;
    assert a != b;
  }

  /** Failing both exact matches, the first display name equal up to case is chosen. */
  lemma CaseInsensitiveFallback(token: string, jobs: seq<NamedJob>, i: nat)
    requires forall j :: 0 <= j < |jobs| ==> jobs[j].displayName != token && jobs[j].jobName != token
    requires i < |jobs| && ToLower(jobs[i].displayName) == ToLower(token)
    requires forall j :: 0 <= j < i ==> ToLower(jobs[j].displayName) != ToLower(token)
    ensures FindByName(token, jobs) == Some(jobs[i])
  {
    NoNameMatches(token, jobs);
    assert FirstLower(token, jobs).Some?;
  }

  /** Typing a listed display name always selects a job displayed under exactly that name. */
  lemma ListedNameFound(jobs: seq<NamedJob>, i: nat)
    requires i < |jobs|
    ensures FindByName(jobs[i].displayName, jobs).Some?
    ensures FindByName(jobs[i].displayName, jobs).value.displayName == jobs[i].displayName
  {
    assert FirstDisplay(jobs[i].displayName, jobs).Some?;
  }

  lemma NameMatchesStep(token: string, jobs: seq<NamedJob>, i: nat)
    requires i < |jobs|
    ensures NameMatches(token, jobs[..i + 1]) ==
      NameMatches(token, jobs[..i]) + if jobs[i].jobName == token then [i] else []
  {
    assert jobs[..i + 1][..i] == jobs[..i];
  }

  /** `findJobByName(token, allJobs)`, with its three passes over the list. */
  method FindJobByName(token: string, jobs: seq<NamedJob>) returns (found: Option<NamedJob>)
    ensures found == FindByName(token, jobs)
  {
    var d := DisplayPass(token, jobs);
    if d.Some? {
      return Some(jobs[d.value]);
    }
    var candidate, ambiguous := JobNamePass(token, jobs);
    if ambiguous {
      return None;
    }
    if candidate.Some? {
      return Some(jobs[candidate.value]);
    }
    var c := IgnoreCasePass(token, jobs);
    found := if c.Some? then Some(jobs[c.value]) else None;
  }

  /** The first pass: the first exact display name. */
  method DisplayPass(token: string, jobs: seq<NamedJob>) returns (r: Option<nat>)
    ensures r == FirstDisplay(token, jobs)
  {
    for i := 0 to |jobs|
      invariant forall j :: 0 <= j < i ==> jobs[j].displayName != token
    {
      if jobs[i].displayName == token {
        return Some(i);
      }
    }
    return None;
  }

  /** The second pass: the job name, remembered once and given up on at its second holder. */
  method JobNamePass(token: string, jobs: seq<NamedJob>) returns (candidate: Option<nat>, ambiguous: bool)
    ensures ambiguous <==> |NameMatches(token, jobs)| >= 2
    ensures !ambiguous ==> (candidate.None? <==> NameMatches(token, jobs) == [])
    ensures !ambiguous && candidate.Some? ==> NameMatches(token, jobs) == [candidate.value]
  {
    candidate := None;
    ambiguous := false;
    for i := 0 to |jobs|
      invariant |NameMatches(token, jobs[..i])| <= 1
      invariant candidate.None? <==> NameMatches(token, jobs[..i]) == []
      invariant candidate.Some? ==> NameMatches(token, jobs[..i]) == [candidate.value]
    {
      NameMatchesStep(token, jobs, i);
      if jobs[i].jobName == token {
        if candidate.None? {
          candidate := Some(i);
        } else {
          NameMatchesGrow(token, jobs, i + 1);
          ambiguous := true;
          return;
        }
      }
    }
    assert jobs[..|jobs|] == jobs;
  }

  /** The third pass: the first display name equal up to case. */
  method IgnoreCasePass(token: string, jobs: seq<NamedJob>) returns (r: Option<nat>)
    ensures r == FirstLower(token, jobs)
  {
    var lower := ToLower(token);
    for i := 0 to |jobs|
      invariant forall j :: 0 <= j < i ==> ToLower(jobs[j].displayName) != lower
    {
      if ToLower(jobs[i].displayName) == lower {
        return Some(i);
      }
    }
    return None;
  }

  // ---------------------------------------------------------------- selection

  /**
    * A trimmed, non-blank piece as written: a run of digits is a 1-based position (skipped
    * when out of range, but `parseInt` throws beyond `int`), anything else a name.
    */
  function PickTokenAsWritten(token: string, jobs: seq<NamedJob>): (r: Result<Option<NamedJob>, string>)
    ensures r.Err? ==> IsNumber(token) && DecimalValue(token) > MaxInt
    ensures r.Ok? && r.value.Some? ==> r.value.value in jobs
  {
    if token == [] then Ok(None)
    else if IsNumber(token) then
      var idx := DecimalValue(token);
      if idx > MaxInt then Err(token)
      else if 1 <= idx <= |jobs| then Ok(Some(jobs[idx - 1]))
      else Ok(None)
    else Ok(FindByName(token, jobs))
  }

  /** One piece of the selection as written; a blank piece is skipped. */
  function PickAsWritten(part: string, jobs: seq<NamedJob>): (r: Result<Option<NamedJob>, string>)
    ensures IsBlank(part) ==> r == Ok(None)
    ensures r.Err? ==> IsNumber(Trim(part)) && DecimalValue(Trim(part)) > MaxInt
    ensures r.Ok? && r.value.Some? ==> r.value.value in jobs
  {
    PickTokenAsWritten(Trim(part), jobs)
  }

  /** A trimmed piece as intended: every invalid item, however large a number, is skipped. */
  function PickToken(token: string, jobs: seq<NamedJob>): (r: Option<NamedJob>)
    ensures r.Some? ==> r.value in jobs
  {
    if token == [] then None
    else if IsNumber(token) then
      var idx := DecimalValue(token);
      if 1 <= idx <= |jobs| then Some(jobs[idx - 1]) else None
    else FindByName(token, jobs)
  }

  /** One piece as intended. */
  function Pick(part: string, jobs: seq<NamedJob>): (r: Option<NamedJob>)
    ensures r.Some? ==> r.value in jobs
    ensures IsBlank(part) ==> r == None
  {
    PickToken(Trim(part), jobs)
  }

  /** The two agree except on numbers beyond `int`, where the original throws. */
  lemma PickAgrees(part: string, jobs: seq<NamedJob>)
    ensures PickAsWritten(part, jobs).Err? <==> IsNumber(Trim(part)) && DecimalValue(Trim(part)) > MaxInt
    ensures PickAsWritten(part, jobs).Ok? ==> PickAsWritten(part, jobs).value == Pick(part, jobs)
  {
  }

  /** A number has nothing for `trim` to remove. */
  lemma DecimalTrimmed(n: nat)
    ensures Trim(Decimal(n)) == Decimal(n)
  {
    var t := Decimal(n);
    assert IsDigit(t[0]) && IsDigit(t[|t| - 1]);
    TrimUnpadded(t);
  }

  lemma HugeTokenThrows(n: nat, jobs: seq<NamedJob>)
    requires n > MaxInt
    ensures PickTokenAsWritten(Decimal(n), jobs).Err?
    ensures |jobs| <= MaxInt ==> PickToken(Decimal(n), jobs) == None
  {
    DecimalRoundTrip(n);
  }

  /** Any position beyond `int`, such as 2147483648, makes the original throw instead of being skipped. */
  lemma HugePositionThrows(n: nat, jobs: seq<NamedJob>)
    requires n > MaxInt
    ensures PickAsWritten(Decimal(n), jobs).Err?
    ensures |jobs| <= MaxInt ==> Pick(Decimal(n), jobs) == None
  {
    DecimalTrimmed(n);
    HugeTokenThrows(n, jobs);
  }

  /** A listed position, typed in decimal, selects the job listed there. */
  lemma PickPosition(k: nat, jobs: seq<NamedJob>)
    requires 1 <= k <= |jobs|
    ensures Pick(Decimal(k), jobs) == Some(jobs[k - 1])
  {
    DecimalTrimmed(k);
    DecimalRoundTrip(k);
    assert PickToken(Decimal(k), jobs) == Some(jobs[k - 1]);
  }

  /**
    * Position 0 and any position past the list select nothing: the item is skipped, and the
    * original skips it too as long as the number fits in an `int`.
    */
  lemma PickOutOfRange(k: nat, jobs: seq<NamedJob>)
    requires k == 0 || k > |jobs|
    ensures Pick(Decimal(k), jobs) == None
    ensures k <= MaxInt ==> PickAsWritten(Decimal(k), jobs) == Ok(None)
  {
    DecimalTrimmed(k);
    DecimalRoundTrip(k);
  }

  /** The jobs the pieces select, in the order they were typed. */
  function Picks(parts: seq<string>, jobs: seq<NamedJob>): (r: seq<NamedJob>)
    ensures |r| <= |parts|
    ensures forall x :: x in r ==> x in jobs
  {
    if parts == [] then []
    else
      var p := Pick(parts[|parts| - 1], jobs);
      Picks(parts[..|parts| - 1], jobs) + if p.Some? then [p.value] else []
  }

  /** `resolveSelectedJobs(input, allJobs)`: the pieces between backslashes, blank input selecting nothing. */
  function Select(input: Option<string>, jobs: seq<NamedJob>): (r: seq<NamedJob>)
    ensures IsBlankOpt(input) ==> r == []
    ensures forall x :: x in r ==> x in jobs
    ensures !IsBlankOpt(input) ==> |r| <= |Split(input.value, Separator)|
  {
    if IsBlankOpt(input) then [] else Picks(Split(input.value, Separator), jobs)
  }

  lemma {:induction false} PicksPositions(ks: seq<nat>, jobs: seq<NamedJob>)
    requires forall i :: 0 <= i < |ks| ==> 1 <= ks[i] <= |jobs|
    ensures Picks(seq(|ks|, i requires 0 <= i < |ks| => Decimal(ks[i])), jobs) ==
      seq(|ks|, i requires 0 <= i < |ks| => jobs[ks[i] - 1])
  {
    if ks != [] {
      var n := |ks| - 1;
      var parts := seq(|ks|, i requires 0 <= i < |ks| => Decimal(ks[i]));
      PicksPositions(ks[..n], jobs);
      assert parts[..n] == seq(n, i requires 0 <= i < n => Decimal(ks[..n][i]));
      PickPosition(ks[n], jobs);
    }
  }

  /**
    * Positions typed in decimal between backslashes, as in `1\3\5`, select those jobs in the
    * order they were typed, repetitions included.
    */
  lemma SelectPositions(ks: seq<nat>, jobs: seq<NamedJob>)
    requires ks != []
    requires forall i :: 0 <= i < |ks| ==> 1 <= ks[i] <= |jobs|
    ensures Select(Some(JoinWith(seq(|ks|, i requires 0 <= i < |ks| => Decimal(ks[i])), Separator)), jobs) ==
      seq(|ks|, i requires 0 <= i < |ks| => jobs[ks[i] - 1])
  {
    var parts := seq(|ks|, i requires 0 <= i < |ks| => Decimal(ks[i]));
    var input := JoinWith(parts, Separator);
    SplitJoin(parts, Separator);
    PicksPositions(ks, jobs);
    assert !IsBlank(input) by {
      JoinStartsWith(parts, Separator);
      BlankIffAllTrimmable(input);
      assert !IsTrimmable(input[0]);
    }
  }

  lemma JoinStartsWith(parts: seq<string>, sep: char)
    requires |parts| >= 1
    ensures parts[0] <= JoinWith(parts, sep)
  {
  }

  /** `resolveSelectedJobs`, appending what each piece selects. */
  method ResolveSelectedJobs(input: Option<string>, jobs: seq<NamedJob>) returns (selected: seq<NamedJob>)
    ensures selected == Select(input, jobs)
  {
    if input.None? || IsBlank(input.value) {
      return [];
    }
    var parts := Split(input.value, Separator);
    selected := PickAll(parts, jobs);
  }

  /** The loop of `resolveSelectedJobs` over the pieces. */
  method PickAll(parts: seq<string>, jobs: seq<NamedJob>) returns (selected: seq<NamedJob>)
    ensures selected == Picks(parts, jobs)
  {
    selected := [];
    for i := 0 to |parts|
      invariant selected == Picks(parts[..i], jobs)
    {
      assert parts[..i + 1][..i] == parts[..i];
      var found := PickPart(parts[i], jobs);
      if found.Some? {
        selected := selected + [found.value];
      }
    }
    assert parts[..|parts|] == parts;
  }

  /** One turn of the loop in `resolveSelectedJobs`. */
  method PickPart(part: string, jobs: seq<NamedJob>) returns (found: Option<NamedJob>)
    ensures found == Pick(part, jobs)
  {
    var token := Trim(part);
    found := PickTokenOf(token, jobs);
  }

  method PickTokenOf(token: string, jobs: seq<NamedJob>) returns (found: Option<NamedJob>)
    ensures found == PickToken(token, jobs)
  {
    found := None;
    if token != [] {
      if IsNumber(token) {
        var idx := DecimalValue(token);
        if 1 <= idx <= |jobs| {
          found := Some(jobs[idx - 1]);
        }
      } else {
        found := FindJobByName(token, jobs);
      }
    }
  }

  // ---------------------------------------------------------------- yes/no prompt

  const YesWords: set<string> := {"y", "yes", "true", "1"}
  const NoWords: set<string> := {"n", "no", "false", "0"}

  /** The decision on a trimmed, lower-cased answer: one of the eight words, or else the default. */
  function Answer(s: string, default: bool): (r: bool)
    ensures s in YesWords ==> r
    ensures s in NoWords ==> !r
    ensures r != default ==> s in (if default then NoWords else YesWords)
  {
    if s == [] then default
    else if s in YesWords then true
    else if s in NoWords then false
    else default
  }

  /**
    * `askYesNo` once the line is read: padding and case are ignored. `Scanner.nextLine` throws
    * at the end of input rather than returning null, so the null check is dead code; None keeps
    * the default as that check would.
    */
  function YesNo(line: Option<string>, default: bool): (r: bool)
    ensures line.None? ==> r == default
    ensures line.Some? && ToLower(Trim(line.value)) in YesWords ==> r
    ensures line.Some? && ToLower(Trim(line.value)) in NoWords ==> !r
    ensures r != default ==> line.Some? && ToLower(Trim(line.value)) in (if default then NoWords else YesWords)
  {
    if line.None? then default else Answer(ToLower(Trim(line.value)), default)
  }

  lemma ToLowerIdempotent(s: string)
    ensures ToLower(ToLower(s)) == ToLower(s)
  {
  }

  /** The answer does not depend on the case the user typed it in. */
  lemma YesNoIgnoresCase(x: string, default: bool)
    ensures YesNo(Some(ToLower(x)), default) == YesNo(Some(x), default)
  {
    TrimToLowerCommute(x);
    ToLowerIdempotent(Trim(x));
  }
}
