/** The few java.lang.String operations the packager relies on, over `seq<char>`. */
module Text {
  import opened Wrappers

  /** `String.trim` removes every character whose code point is at most U+0020. */
  predicate IsTrimmable(c: char) {
    c <= ' '
  }

  predicate AllTrimmable(s: string) {
    forall i :: 0 <= i < |s| ==> IsTrimmable(s[i])
  }

  /** Leading trimmable characters removed. */
  function TrimStart(s: string): string {
    if s != [] && IsTrimmable(s[0]) then TrimStart(s[1..]) else s
  }

  /** Trailing trimmable characters removed. */
  function TrimEnd(s: string): string {
    if s != [] && IsTrimmable(s[|s| - 1]) then TrimEnd(s[..|s| - 1]) else s
  }

  /**
    * `String.trim()`: trimmable characters are dropped from either end, one at a time, until
    * neither end holds one.
    */
  function Trim(s: string): (r: string)
    ensures r == [] || (!IsTrimmable(r[0]) && !IsTrimmable(r[|r| - 1]))
    ensures |r| <= |s|
    decreases |s|
  {
    if s == [] then s
    else if IsTrimmable(s[0]) then Trim(s[1..])
    else if IsTrimmable(s[|s| - 1]) then Trim(s[..|s| - 1])
    else s
  }

  /** `s == null || s.trim().isEmpty()` for a non-null `s`. */
  predicate IsBlank(s: string) {
    Trim(s) == []
  }

  /** The same test on a reference that may be null. */
  predicate IsBlankOpt(s: Option<string>) {
    s.None? || IsBlank(s.value)
  }

  /** Stripping the front first and then the back, as `String.trim` scans, gives the same string. */
  lemma {:induction false} TrimStartThenEnd(s: string)
    ensures Trim(s) == TrimEnd(TrimStart(s))
    decreases |s|
  {
    if s == [] {
    } else if IsTrimmable(s[0]) {
      TrimStartThenEnd(s[1..]);
    } else if IsTrimmable(s[|s| - 1]) {
      var n := |s| - 1;
      TrimStartThenEnd(s[..n]);
      assert s[..n][0] == s[0];
    }
  }

  /** A string is blank exactly when every character of it is trimmable. */
  lemma {:induction false} BlankIffAllTrimmable(s: string)
    ensures IsBlank(s) <==> AllTrimmable(s)
    decreases |s|
  {
    if s == [] {
    } else if IsTrimmable(s[0]) {
      BlankIffAllTrimmable(s[1..]);
      assert forall i :: 1 <= i < |s| ==> s[i] == s[1..][i - 1];
    } else if IsTrimmable(s[|s| - 1]) {
      var n := |s| - 1;
      BlankIffAllTrimmable(s[..n]);
      assert s[..n][0] == s[0];
    }
  }

  /** Trimming a string that neither starts nor ends with a trimmable character changes nothing. */
  lemma TrimUnpadded(s: string)
    requires s == [] || (!IsTrimmable(s[0]) && !IsTrimmable(s[|s| - 1]))
    ensures Trim(s) == s
  {
  }

  /** Trimming twice is trimming once. */
  lemma TrimIdempotent(s: string)
    ensures Trim(Trim(s)) == Trim(s)
  {
    TrimUnpadded(Trim(s));
  }

  /** Java's `Character.toLowerCase` on the ASCII letters. */
  function ToLowerChar(c: char): (r: char)
    ensures 'A' <= c <= 'Z' ==> 'a' <= r <= 'z'
    ensures !('A' <= c <= 'Z') ==> r == c
  {
    if 'A' <= c <= 'Z' then (c as int - 'A' as int + 'a' as int) as char else c
  }

  /** `String.toLowerCase()`, restricted to ASCII letters. */
  function ToLower(s: string): (r: string)
    ensures |r| == |s|
    ensures forall i :: 0 <= i < |s| ==> r[i] == ToLowerChar(s[i])
  {
    seq(|s|, i requires 0 <= i < |s| => ToLowerChar(s[i]))
  }

  /** `a.equalsIgnoreCase(b)` on ASCII text. */
  predicate EqualsIgnoreCase(a: string, b: string) {
    ToLower(a) == ToLower(b)
  }

  predicate StartsWith(s: string, prefix: string) {
    |prefix| <= |s| && s[..|prefix|] == prefix
  }

  predicate EndsWith(s: string, suffix: string) {
    |suffix| <= |s| && s[|s| - |suffix|..] == suffix
  }

  /** Lower-casing leaves trimmable characters alone, so it commutes with `trim`. */
  lemma {:induction false} TrimToLowerCommute(s: string)
    ensures Trim(ToLower(s)) == ToLower(Trim(s))
    decreases |s|
  {
    var l := ToLower(s);
    if s == [] {
    } else if IsTrimmable(s[0]) {
      assert l[1..] == ToLower(s[1..]);
      TrimToLowerCommute(s[1..]);
    } else if IsTrimmable(s[|s| - 1]) {
      var n := |s| - 1;
      assert l[..n] == ToLower(s[..n]);
      TrimToLowerCommute(s[..n]);
    }
  }

  /**
    * The pieces of `s` between occurrences of `sep`, empty pieces kept. (Java's `split` also
    * drops trailing empty pieces; every caller here skips empty pieces anyway.)
    */
  function Split(s: string, sep: char): (r: seq<string>)
    ensures |r| >= 1
    ensures forall i :: 0 <= i < |r| ==> sep !in r[i]
    decreases |s|
  {
    if s == [] then [[]]
    else
      var rest := Split(s[1..], sep);
      if s[0] == sep then [[]] + rest
      else [[s[0]] + rest[0]] + rest[1..]
  }

  /** The pieces written back with `sep` between them. */
  function JoinWith(parts: seq<string>, sep: char): string
    requires |parts| >= 1
    decreases |parts|
  {
    if |parts| == 1 then parts[0] else parts[0] + [sep] + JoinWith(parts[1..], sep)
  }

  /** Splitting loses nothing: the pieces joined with the separator give the text back. */
  lemma {:induction false} JoinSplit(s: string, sep: char)
    ensures JoinWith(Split(s, sep), sep) == s
    decreases |s|
  {
    if s != [] {
      JoinSplit(s[1..], sep);
      var rest := Split(s[1..], sep);
      if s[0] == sep {
        assert Split(s, sep)[1..] == rest;
      } else if |rest| == 1 {
        assert s == [s[0]] + s[1..];
      } else {
        assert Split(s, sep)[1..] == rest[1..];
        assert s == [s[0]] + s[1..];
        assert JoinWith(rest, sep) == rest[0] + [sep] + JoinWith(rest[1..], sep);
      }
    }
  }

  /** Pieces free of the separator are split back out of their join. */
  lemma {:induction false} SplitJoin(parts: seq<string>, sep: char)
    requires |parts| >= 1
    requires forall i :: 0 <= i < |parts| ==> sep !in parts[i]
    ensures Split(JoinWith(parts, sep), sep) == parts
    decreases |parts|
  {
    if |parts| == 1 {
      SplitPrefix(parts[0], [], sep);
      assert parts[0] + [] == parts[0];
    } else {
      SplitJoin(parts[1..], sep);
      var tail := [sep] + JoinWith(parts[1..], sep);
      assert tail[1..] == JoinWith(parts[1..], sep);
      assert Split(tail, sep) == [[]] + parts[1..];
      SplitPrefix(parts[0], tail, sep);
      assert parts[0] + [sep] + JoinWith(parts[1..], sep) == parts[0] + tail;
      assert parts[0] + [] == parts[0];
      assert parts == [parts[0]] + parts[1..];
    }
  }

  /** A separator-free prefix becomes the start of the first piece. */
  lemma {:induction false} SplitPrefix(a: string, t: string, sep: char)
    requires sep !in a
    ensures Split(a + t, sep) == [a + Split(t, sep)[0]] + Split(t, sep)[1..]
    decreases |a|
  {
    if a == [] {
      var r := Split(t, sep);
      assert a + t == t;
      assert a + r[0] == r[0];
      assert r == [r[0]] + r[1..];
    } else {
      SplitPrefix(a[1..], t, sep);
      assert (a + t)[1..] == a[1..] + t;
      assert a[0] != sep by {
        assert a[0] in a;
      }
      assert [a[0]] + (a[1..] + Split(t, sep)[0]) == a + Split(t, sep)[0];
    }
  }
}
