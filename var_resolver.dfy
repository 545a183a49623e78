/**
  * `${key}` substitution in configuration strings (VarResolver.resolve).
  * A token is `${`, one or more characters of `[A-Za-z0-9_.-]`, then `}`; a token whose key
  * is in the table is replaced by the value, any other token is kept as it is, and the whole
  * text is rescanned at most five times so that values may refer to further keys.
  */
module VarResolver {
  import opened Wrappers

  /** The number of passes the resolver makes at most. */
  const MaxPasses: nat := 5

  /** A character of the key class `[A-Za-z0-9_\-\.]`. */
  predicate IsKeyChar(c: char) {
    ('A' <= c <= 'Z') || ('a' <= c <= 'z') || ('0' <= c <= '9') || c == '_' || c == '-' || c == '.'
  }

  /** A key the pattern can capture: at least one key character. */
  predicate IsKey(k: string) {
    |k| > 0 && forall i :: 0 <= i < |k| ==> IsKeyChar(k[i])
  }

  /** The text of the token for key `k`. */
  function TokenText(k: string): string {
    "${" + k + "}"
  }

  /** A token found by the matcher: its captured key and the number of characters it spans. */
  datatype Token = Token(key: string, len: nat)

  /** Length of the (greedy) run of key characters at the start of `s`. */
  function KeyRun(s: string): (n: nat)
    ensures n <= |s|
    ensures forall i :: 0 <= i < n ==> IsKeyChar(s[i])
    ensures n < |s| ==> !IsKeyChar(s[n])
  {
    if s != [] && IsKeyChar(s[0]) then 1 + KeyRun(s[1..]) else 0
  }

  /**
    * The match of the pattern at the very start of `s`, if any. The key class excludes `}`,
    * so the greedy run of key characters is the only candidate key.
    */
  function TokenAt(s: string): (t: Option<Token>)
    ensures t.Some? ==> IsKey(t.value.key) && t.value.len == |t.value.key| + 3 <= |s|
  {
    if |s| >= 2 && s[0] == '$' && s[1] == '{' then
      var n := KeyRun(s[2..]);
      if n > 0 && 2 + n < |s| && s[2 + n] == '}' then
        Some(Token(s[2..2 + n], n + 3))
      else None
    else None
  }

  /** A token found spans exactly the spelling of its key. */
  lemma TokenAtSpells(s: string)
    requires TokenAt(s).Some?
    ensures s[..TokenAt(s).value.len] == TokenText(TokenAt(s).value.key)
  {
    var n := KeyRun(s[2..]);
    assert s[..n + 3] == TokenText(s[2..2 + n]);
  }

  /** A token spelled out is matched back with its own key. */
  lemma TokenAtTokenText(k: string, rest: string)
    requires IsKey(k)
    ensures TokenAt(TokenText(k) + rest) == Some(Token(k, |k| + 3))
  {
    var s := TokenText(k) + rest;
    assert s[2..] == k + ("}" + rest);
    KeyRunStopsAt(k, "}" + rest);
    assert s[2..2 + |k|] == k;
    assert s[2 + |k|] == '}';
  }

  lemma {:induction false} KeyRunStopsAt(k: string, rest: string)
    requires forall i :: 0 <= i < |k| ==> IsKeyChar(k[i])
    requires rest == [] || !IsKeyChar(rest[0])
    ensures KeyRun(k + rest) == |k|
    decreases |k|
  {
    if k != [] {
      assert (k + rest)[1..] == k[1..] + rest;
      KeyRunStopsAt(k[1..], rest);
    }
  }

  /** The outcome of one scan over the text: the rebuilt text and whether any key was found. */
  datatype PassResult = PassResult(text: string, changed: bool)

  /** What one step of the scan appends, how far it advances, and whether it substituted a value. */
  datatype Step = Step(piece: string, adv: nat, hit: bool)

  /**
    * One step of the matcher at the start of `s`: a token with a known key yields its value,
    * taken literally; a token with an unknown key yields itself; any other character is copied.
    */
  function ScanStep(s: string, vars: map<string, string>): (st: Step)
    requires s != []
    ensures 1 <= st.adv <= |s|
    ensures !st.hit ==> st.piece == s[..st.adv]
  {
    match TokenAt(s)
    case Some(t) =>
      if t.key in vars then Step(vars[t.key], t.len, true) else Step(s[..t.len], t.len, false)
    case None => Step([s[0]], 1, false)
  }

  /**
    * One `while (m.find())` scan: every token whose key is in `vars` is replaced by its value,
    * every other character, unknown tokens included, is copied.
    * A scan that substitutes nothing returns its input.
    */
  function Pass(s: string, vars: map<string, string>): (r: PassResult)
    ensures !r.changed ==> r.text == s
    decreases |s|
  {
    if s == [] then PassResult([], false)
    else
      var st := ScanStep(s, vars);
      var rest := Pass(s[st.adv..], vars);
      assert !st.hit && !rest.changed ==> s == s[..st.adv] + s[st.adv..];
      PassResult(st.piece + rest.text, st.hit || rest.changed)
  }

  /** A scan is its first step followed by the scan of what that step leaves. */
  lemma PassCons(s: string, vars: map<string, string>)
    requires s != []
    ensures var st := ScanStep(s, vars);
      Pass(s, vars) == PassResult(st.piece + Pass(s[st.adv..], vars).text, st.hit || Pass(s[st.adv..], vars).changed)
  {
  }

  /** Concatenation regroups; stated apart so that the scan's definitions stay out of the way. */
  lemma Regroup(a: string, b: string, c: string)
    ensures a + (b + c) == (a + b) + c
  {
  }

  /** At most `n` more scans, stopping after the first one that substitutes nothing. */
  function Passes(s: string, vars: map<string, string>, n: nat): string
    decreases n
  {
    if n == 0 then s
    else
      var p := Pass(s, vars);
      if !p.changed then p.text else Passes(p.text, vars, n - 1)
  }

  /** One more scan of the loop, spelled out. */
  lemma PassesUnfold(s: string, vars: map<string, string>, n: nat)
    requires n > 0
    ensures Passes(s, vars, n) == if Pass(s, vars).changed then Passes(Pass(s, vars).text, vars, n - 1) else Pass(s, vars).text
  {
  }

  /** `VarResolver.resolve` on a non-null text and a table (a null table acts as an empty one). */
  function Resolve(text: string, vars: map<string, string>): (r: string)
    ensures text == [] || vars == map[] ==> r == text
  {
    if text == [] || vars == map[] then text else Passes(text, vars, MaxPasses)
  }

  /** `VarResolver.resolve` on a text that may be null: null comes back as null. */
  function ResolveOpt(text: Option<string>, vars: map<string, string>): (r: Option<string>)
    ensures r.None? <==> text.None?
  {
    match text
    case None => None
    case Some(t) => Some(Resolve(t, vars))
  }

  /** The scan of `s` is what has been built so far followed by the scan of `rest`. */
  predicate Continues(s: string, vars: map<string, string>, sb: string, changed: bool, rest: string) {
    Pass(s, vars).text == sb + Pass(rest, vars).text && Pass(s, vars).changed == (changed || Pass(rest, vars).changed)
  }

  /** What the scan loop knows after one more step, from what it knew before it. */
  lemma ScanMore(s: string, vars: map<string, string>, sb: string, changed: bool, rest: string)
    requires rest != []
    requires Continues(s, vars, sb, changed, rest)
    ensures var st := ScanStep(rest, vars);
      Continues(s, vars, sb + st.piece, changed || st.hit, rest[st.adv..])
  {
    var st := ScanStep(rest, vars);
    PassCons(rest, vars);
    Regroup(sb, st.piece, Pass(rest[st.adv..], vars).text);
  }

  /**
    * One scan of the matcher loop, with `appendReplacement`/`appendTail` as appends to `sb`;
    * `rest`, the text not yet scanned, stands for the matcher's position.
    */
  method ReplaceAll(s: string, vars: map<string, string>) returns (out: string, changed: bool)
    ensures PassResult(out, changed) == Pass(s, vars)
  {
    var sb: string := [];
    changed := false;
    var rest := s;
    while rest != []
      invariant Continues(s, vars, sb, changed, rest)
      decreases |rest|
    {
      var st := ScanStep(rest, vars);
      ScanMore(s, vars, sb, changed, rest);
      sb := sb + st.piece;
      changed := changed || st.hit;
      rest := rest[st.adv..];
    }
    assert Pass(rest, vars) == PassResult([], false);
    out := sb;
  }

  /** `VarResolver.resolve`: up to five scans, leaving the loop after one that changed nothing. */
  method ResolveText(text: Option<string>, vars: map<string, string>) returns (r: Option<string>)
    ensures r == ResolveOpt(text, vars)
  {
    if text.None? || text.value == [] || |vars| == 0 {
      return text;
    }
    var result := text.value;
    for i := 0 to MaxPasses
      invariant Passes(result, vars, MaxPasses - i) == Passes(text.value, vars, MaxPasses)
    {
      var sb, changed := ReplaceAll(result, vars);
      PassesUnfold(result, vars, MaxPasses - i);
      result := sb;
      if !changed {
        break;
      }
    }
    return Some(result);
  }

  /** No token whose key is in the table occurs anywhere in `s`. */
  predicate KnownAt(s: string, vars: map<string, string>) {
    TokenAt(s).Some? && TokenAt(s).value.key in vars
  }

  predicate NoKnownToken(s: string, vars: map<string, string>) {
    forall i :: 0 <= i < |s| ==> !KnownAt(s[i..], vars)
  }

  /** Inside a token no other token can start: only its first character is `$`. */
  lemma TokenInterior(s: string, j: nat)
    requires TokenAt(s).Some? && 0 < j < TokenAt(s).value.len
    ensures TokenAt(s[j..]).None?
  {
    var t := TokenAt(s).value;
    TokenAtSpells(s);
    assert s[j] == s[..t.len][j] == TokenText(t.key)[j];
    if j == 1 {
      assert s[j] == '{';
    } else if j < t.len - 1 {
      assert s[j] == t.key[j - 2];
    } else {
      assert s[j] == '}';
    }
  }

  /**
    * The scan reports a change exactly when a token with a known key occurs in the text;
    * in particular a text without such a token passes through unchanged.
    */
  lemma {:induction false} PassChangedIff(s: string, vars: map<string, string>)
    ensures Pass(s, vars).changed <==> !NoKnownToken(s, vars)
    decreases |s|
  {
    if s == [] {
      return;
    }
    match TokenAt(s)
    case Some(t) =>
      PassChangedIff(s[t.len..], vars);
      if t.key in vars {
        assert s[0..] == s;
        assert KnownAt(s[0..], vars);
      } else {
        forall i | 0 <= i < |s[t.len..]|
          ensures KnownAt(s[t.len..][i..], vars) == KnownAt(s[t.len + i..], vars)
        {
          assert s[t.len..][i..] == s[t.len + i..];
        }
        forall j | 0 <= j < t.len
          ensures !KnownAt(s[j..], vars)
        {
          if j == 0 {
            assert s[0..] == s;
          } else {
            TokenInterior(s, j);
          }
        }
        if !NoKnownToken(s, vars) {
          var i :| 0 <= i < |s| && KnownAt(s[i..], vars);
          assert i >= t.len;
          assert KnownAt(s[t.len..][i - t.len..], vars);
        }
      }
    case None =>
      PassChangedIff(s[1..], vars);
      assert s[0..] == s;
      forall i | 0 <= i < |s[1..]|
        ensures KnownAt(s[1..][i..], vars) == KnownAt(s[1 + i..], vars)
      {
        assert s[1..][i..] == s[1 + i..];
      }
      if !NoKnownToken(s, vars) {
        var i :| 0 <= i < |s| && KnownAt(s[i..], vars);
        assert i >= 1;
        assert KnownAt(s[1..][i - 1..], vars);
      }
  }

  /** Identity: a text holding no token whose key is in the table resolves to itself. */
  lemma NoKnownTokenResolvesToItself(text: string, vars: map<string, string>)
    requires NoKnownToken(text, vars)
    ensures Resolve(text, vars) == text
  {
    PassChangedIff(text, vars);
  }

  /** `k` rounds of replacement, whether or not they change anything. */
  function Rounds(s: string, vars: map<string, string>, k: nat): string
    decreases k
  {
    if k == 0 then s else Rounds(Pass(s, vars).text, vars, k - 1)
  }

  /** Once a round changes nothing, further rounds keep the text. */
  lemma {:induction false} RoundsStable(s: string, vars: map<string, string>, k: nat)
    requires !Pass(s, vars).changed
    ensures Rounds(s, vars, k) == s
    decreases k
  {
    if k > 0 {
      RoundsStable(s, vars, k - 1);
    }
  }

  lemma PassesStable(s: string, vars: map<string, string>, n: nat)
    requires !Pass(s, vars).changed
    ensures Passes(s, vars, n) == s
  {
    if n > 0 {
      PassesUnfold(s, vars, n);
    }
  }

  lemma {:induction false} PassesReach(s: string, vars: map<string, string>, k: nat, n: nat)
    requires k <= n && NoKnownToken(Rounds(s, vars, k), vars)
    ensures Passes(s, vars, n) == Rounds(s, vars, k)
    decreases n
  {
    if n > 0 {
      if k == 0 {
        PassChangedIff(s, vars);
        PassesStable(s, vars, n);
      } else if !Pass(s, vars).changed {
        RoundsStable(s, vars, k);
        PassesStable(s, vars, n);
      } else {
        PassesUnfold(s, vars, n);
        PassesReach(Pass(s, vars).text, vars, k - 1, n - 1);
      }
    }
  }

  /**
    * Any chain of references at most five deep resolves completely: when some number of
    * rounds, no more than five, leaves no token of a known key, that is what `resolve` returns.
    */
  lemma ResolvesWithinFive(text: string, vars: map<string, string>, k: nat)
    requires k <= MaxPasses && NoKnownToken(Rounds(text, vars, k), vars)
    ensures Resolve(text, vars) == Rounds(text, vars, k)
  {
    if text == [] || vars == map[] {
      assert NoKnownToken(text, vars) by {
        if vars == map[] {
          assert forall i :: 0 <= i < |text| ==> !KnownAt(text[i..], vars);
        }
      }
      PassChangedIff(text, vars);
      RoundsStable(text, vars, k);
    } else {
      PassesReach(text, vars, k, MaxPasses);
    }
  }

  /** A token with a known key is replaced by the value verbatim (no `$` or `\` is interpreted). */
  lemma PassKnownToken(k: string, rest: string, vars: map<string, string>)
    requires IsKey(k) && k in vars
    ensures Pass(TokenText(k) + rest, vars) == PassResult(vars[k] + Pass(rest, vars).text, true)
  {
    TokenAtTokenText(k, rest);
    assert (TokenText(k) + rest)[|k| + 3..] == rest;
  }

  /** A token with an unknown key is reproduced as it stands. */
  lemma PassUnknownToken(k: string, rest: string, vars: map<string, string>)
    requires IsKey(k) && k !in vars
    ensures Pass(TokenText(k) + rest, vars) == PassResult(TokenText(k) + Pass(rest, vars).text, Pass(rest, vars).changed)
  {
    TokenAtTokenText(k, rest);
    assert (TokenText(k) + rest)[|k| + 3..] == rest;
    assert (TokenText(k) + rest)[..|k| + 3] == TokenText(k);
  }

  /** A value that refers to a second key is resolved through the chain. */
  lemma ChainResolves(a: string, b: string, x: string, vars: map<string, string>)
    requires IsKey(a) && IsKey(b) && a != b
    requires vars == map[a := TokenText(b), b := x] && NoKnownToken(x, vars)
    ensures Resolve(TokenText(a), vars) == x
  {
    LoneKnownToken(a, vars);
    LoneKnownToken(b, vars);
    PassChangedIff(x, vars);
    PassesUnfold(TokenText(a), vars, 5);
    PassesUnfold(TokenText(b), vars, 4);
    PassesUnfold(x, vars, 3);
  }

  /** A text that is a single known token becomes that token's value. */
  lemma LoneKnownToken(k: string, vars: map<string, string>)
    requires IsKey(k) && k in vars
    ensures Pass(TokenText(k), vars) == PassResult(vars[k], true)
  {
    PassKnownToken(k, "", vars);
    assert TokenText(k) + "" == TokenText(k);
  }

  /** A self-referential key does not loop: after five scans the token is still there. */
  lemma CycleTerminates(k: string, vars: map<string, string>)
    requires IsKey(k) && k in vars && vars[k] == TokenText(k)
    ensures Resolve(TokenText(k), vars) == TokenText(k)
  {
    var t := TokenText(k);
    LoneKnownToken(k, vars);
    PassesUnfold(t, vars, 5);
    PassesUnfold(t, vars, 4);
    PassesUnfold(t, vars, 3);
    PassesUnfold(t, vars, 2);
    PassesUnfold(t, vars, 1);
  }
}
