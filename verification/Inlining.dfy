/** Inlining of SQL functions: positional parameters are replaced one after another, from the last to the first
    (src/transpiler/func.rs). */
module Inlining {
  import opened Decimal

  // ----- The code -----

  predicate PrefixOf(pattern: string, s: string) {
    |pattern| <= |s| && s[..|pattern|] == pattern
  }

  /** `str::replace`: occurrences from left to right, without overlap. */
  function Replace(s: string, pattern: string, replacement: string): string
    requires pattern != ""
  {
    if s == "" then ""
    else if PrefixOf(pattern, s) then replacement + Replace(s[|pattern|..], pattern, replacement)
    else [s[0]] + Replace(s[1..], pattern, replacement)
  }

  function Placeholder(k: nat): (p: string)
    ensures |p| > 1 && p[0] == '$' && p[1..] == OfNat(k)
  {
    "$" + OfNat(k)
  }

  function Parenthesized(arg: string): (p: string)
    ensures |p| == |arg| + 2 && p[0] == '('
  {
    "(" + arg + ")"
  }

  method Inline(body: string, args: seq<string>) returns (inlined: string)
    ensures inlined == Inlined(body, args, |args|)
  {
    inlined := body;
    var i := |args|;
    while i > 0
      invariant 0 <= i <= |args|
      invariant Inlined(inlined, args, i) == Inlined(body, args, |args|)
    {
      i := i - 1;
      inlined := Replace(inlined, Placeholder(i + 1), Parenthesized(args[i]));
    }
  }

  /** The replacements from $m down to $1. */
  function Inlined(s: string, args: seq<string>, m: nat): string
    requires m <= |args|
    decreases m
  {
    if m == 0 then s else Inlined(Replace(s, Placeholder(m), Parenthesized(args[m - 1])), args, m - 1)
  }

  // ----- Simultaneous substitution -----

  function DigitRun(s: string): (n: nat)
    ensures n <= |s| && AllDigits(s[..n]) && (n < |s| ==> !IsDigit(s[n]))
  {
    if s != "" && IsDigit(s[0]) then
      var n := DigitRun(s[1..]);
      assert s[..n + 1] == [s[0]] + s[1..][..n];
      n + 1
    else 0
  }

  /** As in the code, the dollar sign counts wherever it stands, also inside a name, a string or a comment. */
  predicate StartsWithPlaceholder(s: string) {
    s != "" && s[0] == '$' && DigitRun(s[1..]) > 0
  }

  /** The digits of the parameter at the start. */
  function Run(s: string): (digits: string)
    requires StartsWithPlaceholder(s)
    ensures digits != "" && AllDigits(digits)
    ensures |digits| < |s| && s[..1 + |digits|] == "$" + digits
  {
    var n := DigitRun(s[1..]);
    assert s[..1 + n] == [s[0]] + s[1..][..n];
    s[1..][..n]
  }

  function AfterPlaceholder(s: string): (rest: string)
    requires StartsWithPlaceholder(s)
    ensures |rest| < |s| && (rest != "" ==> !IsDigit(rest[0]))
    ensures s == "$" + Run(s) + rest
  {
    s[1..][DigitRun(s[1..])..]
  }

  /** The argument for a parameter numbered above m, if there is one. PostgreSQL reads `$01` as `$1`. */
  function Head(digits: string, args: seq<string>, m: nat): string
    requires AllDigits(digits)
  {
    var k := NatValue(digits);
    if m < k <= |args| then Parenthesized(args[k - 1]) else "$" + digits
  }

  /** Substitutes the parameters numbered above m, all at once; a parameter is `$` with all digits that follow. */
  function Substitute(s: string, args: seq<string>, m: nat): string
    decreases |s|
  {
    if s == "" then ""
    else if StartsWithPlaceholder(s) then Head(Run(s), args, m) + Substitute(AfterPlaceholder(s), args, m)
    else [s[0]] + Substitute(s[1..], args, m)
  }

  /** The digits are one of the numerals 1 to n, or they mean none of these numbers and do not begin with one. */
  predicate SoundRun(digits: string, n: nat)
    requires AllDigits(digits)
  {
    || (exists k :: 1 <= k <= n && digits == OfNat(k))
    || (!(1 <= NatValue(digits) <= n) && Untouched(digits, n))
  }

  predicate Untouched(digits: string, n: nat) {
    forall j :: 1 <= j <= n ==> !PrefixOf(OfNat(j), digits)
  }

  /** This holds of every parameter in the text. */
  predicate Sound(s: string, n: nat)
    decreases |s|
  {
    if s == "" then true
    else if StartsWithPlaceholder(s) then SoundRun(Run(s), n) && Sound(AfterPlaceholder(s), n)
    else Sound(s[1..], n)
  }

  predicate Occurs(pattern: string, s: string) {
    PrefixOf(pattern, s) || (s != "" && Occurs(pattern, s[1..]))
  }

  /** No argument contains the text of a parameter that is replaced after it was inserted. */
  predicate Clean(args: seq<string>) {
    forall j, k :: 0 <= j < |args| && 1 <= k <= j ==> !Occurs(Placeholder(k), args[j])
  }

  // ----- One replacement is one step of the substitution -----

  lemma {:induction false} NothingAboveAll(s: string, args: seq<string>)
    ensures Substitute(s, args, |args|) == s
    decreases |s|
  {
    if s != "" {
      if StartsWithPlaceholder(s) {
        NothingAboveAll(AfterPlaceholder(s), args);
      } else {
        NothingAboveAll(s[1..], args);
      }
    }
  }

  lemma SkipOne(c: char, t: string, pattern: string, replacement: string)
    requires pattern != "" && !PrefixOf(pattern, [c] + t)
    ensures Replace([c] + t, pattern, replacement) == [c] + Replace(t, pattern, replacement)
  {
    assert ([c] + t)[1..] == t;
  }

  /** A match that begins in an argument ends before the closing parenthesis. */
  lemma NoMatchAcross(a: string, t: string, k: nat)
    requires !PrefixOf(Placeholder(k), a)
    ensures !PrefixOf(Placeholder(k), a + ")" + t)
  {
    var p, s := Placeholder(k), a + ")" + t;
    assert |p| <= |a| ==> s[..|p|] == a[..|p|];
    assert 0 < |a| < |p| ==> p[|a|] == OfNat(k)[|a| - 1];
    assert |a| < |p| <= |s| ==> s[..|p|][|a|] == ')';
  }

  lemma {:induction false} ArgumentIsSkipped(a: string, t: string, k: nat, replacement: string)
    requires !Occurs(Placeholder(k), a)
    ensures Replace(a + ")" + t, Placeholder(k), replacement) == a + ")" + Replace(t, Placeholder(k), replacement)
  {
    NoMatchAcross(a, t, k);
    if a == "" {
      assert a + ")" + t == [')'] + t;
      SkipOne(')', t, Placeholder(k), replacement);
    } else {
      ArgumentIsSkipped(a[1..], t, k, replacement);
      assert a + ")" + t == [a[0]] + (a[1..] + ")" + t);
      SkipOne(a[0], a[1..] + ")" + t, Placeholder(k), replacement);
    }
  }

  lemma ParenthesizedIsSkipped(a: string, t: string, k: nat, replacement: string)
    requires !Occurs(Placeholder(k), a)
    ensures Replace(Parenthesized(a) + t, Placeholder(k), replacement)
         == Parenthesized(a) + Replace(t, Placeholder(k), replacement)
  {
    ArgumentIsSkipped(a, t, k, replacement);
    assert Parenthesized(a) + t == ['('] + (a + ")" + t);
    SkipOne('(', a + ")" + t, Placeholder(k), replacement);
  }

  lemma {:induction false} DigitsAreSkipped(d: string, t: string, k: nat, replacement: string)
    requires AllDigits(d)
    ensures Replace(d + t, Placeholder(k), replacement) == d + Replace(t, Placeholder(k), replacement)
  {
    if d == "" {
      assert d + t == t;
    } else {
      assert d[1..] + t == (d + t)[1..];
      assert d + t == [d[0]] + (d[1..] + t);
      DigitsAreSkipped(d[1..], t, k, replacement);
      SkipOne(d[0], d[1..] + t, Placeholder(k), replacement);
    }
  }

  /** A smaller parameter is never taken for a larger one. */
  lemma SmallerDoesNotMatch(j: nat, k: nat, t: string)
    requires j < k && (t != "" ==> !IsDigit(t[0]))
    ensures !PrefixOf(Placeholder(k), Placeholder(j) + t)
  {
    var p, q := Placeholder(k), Placeholder(j);
    OfNatMonotone(j, k);
    if OfNat(j) == OfNat(k) {
      OfNatInjective(j, k);
    }
    assert |p| == |q| ==> (q + t)[..|p|] == q;
    assert |q| < |p| ==> p[|q|] == OfNat(k)[|q| - 1];
    assert |q| < |p| <= |q + t| ==> (q + t)[..|p|][|q|] == t[0];
  }

  lemma SmallerIsSkipped(j: nat, k: nat, t: string, replacement: string)
    requires j < k && (t != "" ==> !IsDigit(t[0]))
    ensures Replace(Placeholder(j) + t, Placeholder(k), replacement)
         == Placeholder(j) + Replace(t, Placeholder(k), replacement)
  {
    SmallerDoesNotMatch(j, k, t);
    assert Placeholder(j) + t == ['$'] + (OfNat(j) + t);
    DigitsAreSkipped(OfNat(j), t, k, replacement);
    SkipOne('$', OfNat(j) + t, Placeholder(k), replacement);
  }

  lemma RunDoesNotMatch(d: string, t: string, m: nat)
    requires AllDigits(d) && !PrefixOf(OfNat(m), d) && (t != "" ==> !IsDigit(t[0]))
    ensures !PrefixOf(Placeholder(m), "$" + d + t)
  {
    var p, u, s := OfNat(m), d + t, "$" + d + t;
    assert |p| <= |d| ==> u[..|p|] == d[..|p|];
    assert |d| < |p| <= |u| ==> u[..|p|][|d|] == t[0];
    assert !PrefixOf(p, u);
    assert |p| + 1 <= |s| ==> s[..|p| + 1][1..] == u[..|p|];
    assert Placeholder(m)[1..] == p;
  }

  /** Digits that do not begin with m are left alone when $m is replaced. */
  lemma RunIsSkipped(d: string, t: string, m: nat, replacement: string)
    requires AllDigits(d) && !PrefixOf(OfNat(m), d) && (t != "" ==> !IsDigit(t[0]))
    ensures Replace("$" + d + t, Placeholder(m), replacement) == "$" + d + Replace(t, Placeholder(m), replacement)
  {
    RunDoesNotMatch(d, t, m);
    assert "$" + d + t == ['$'] + (d + t);
    DigitsAreSkipped(d, t, m, replacement);
    SkipOne('$', d + t, Placeholder(m), replacement);
  }

  lemma {:induction false} SubstitutedStart(s: string, args: seq<string>, m: nat)
    requires s != "" ==> !IsDigit(s[0])
    ensures Substitute(s, args, m) != "" ==> !IsDigit(Substitute(s, args, m)[0])
  {
  }

  lemma CharacterIsSkipped(c: char, t: string, k: nat, replacement: string)
    requires c != '$' || t == "" || !IsDigit(t[0])
    ensures Replace([c] + t, Placeholder(k), replacement) == [c] + Replace(t, Placeholder(k), replacement)
  {
    var p, s := Placeholder(k), [c] + t;
    assert p[1] == OfNat(k)[0];
    assert |p| <= |s| ==> s[..|p|][0] == c && s[..|p|][1] == t[0];
    SkipOne(c, t, p, replacement);
  }

  lemma MatchIsReplaced(pattern: string, t: string, replacement: string)
    requires pattern != ""
    ensures Replace(pattern + t, pattern, replacement) == replacement + Replace(t, pattern, replacement)
  {
    assert (pattern + t)[..|pattern|] == pattern && (pattern + t)[|pattern|..] == t;
  }

  /** One parameter of the text, which has been substituted already, is due, or is left for later. */
  lemma ParameterStep(k: nat, t: string, args: seq<string>, m: nat)
    requires 1 <= k <= |args| && 1 <= m <= |args| && Clean(args) && (t != "" ==> !IsDigit(t[0]))
    ensures Replace((if m < k then Parenthesized(args[k - 1]) else Placeholder(k)) + t, Placeholder(m),
                    Parenthesized(args[m - 1]))
         == (if m <= k then Parenthesized(args[k - 1]) else Placeholder(k))
            + Replace(t, Placeholder(m), Parenthesized(args[m - 1]))
  {
    var replacement := Parenthesized(args[m - 1]);
    if k > m {
      ParenthesizedIsSkipped(args[k - 1], t, m, replacement);
    } else if k == m {
      MatchIsReplaced(Placeholder(k), t, replacement);
    } else {
      SmallerIsSkipped(k, m, t, replacement);
    }
  }

  lemma NumeralOf(digits: string, n: nat)
    requires AllDigits(digits) && SoundRun(digits, n) && 1 <= NatValue(digits) <= n
    ensures digits == OfNat(NatValue(digits))
  {
    var k :| 1 <= k <= n && digits == OfNat(k);
    NatValueOfNat(k);
  }

  lemma UntouchedIfOutside(digits: string, n: nat)
    requires AllDigits(digits) && SoundRun(digits, n) && !(1 <= NatValue(digits) <= n)
    ensures Untouched(digits, n)
  {
    if k :| 1 <= k <= n && digits == OfNat(k) {
      NatValueOfNat(k);
    }
  }

  /** Replacing $m does to one sound parameter what the substitution demands. */
  lemma HeadStep(digits: string, t: string, args: seq<string>, m: nat)
    requires AllDigits(digits) && SoundRun(digits, |args|) && Clean(args) && 1 <= m <= |args|
    requires t != "" ==> !IsDigit(t[0])
    ensures Replace(Head(digits, args, m) + t, Placeholder(m), Parenthesized(args[m - 1]))
         == Head(digits, args, m - 1) + Replace(t, Placeholder(m), Parenthesized(args[m - 1]))
  {
    var k := NatValue(digits);
    if 1 <= k <= |args| {
      NumeralOf(digits, |args|);
      assert "$" + digits == Placeholder(k);
      var due := if m < k then Parenthesized(args[k - 1]) else Placeholder(k);
      var done := if m <= k then Parenthesized(args[k - 1]) else Placeholder(k);
      assert Head(digits, args, m) == due && Head(digits, args, m - 1) == done;
      ParameterStep(k, t, args, m);
    } else {
      UntouchedIfOutside(digits, |args|);
      assert Head(digits, args, m) == "$" + digits == Head(digits, args, m - 1);
      RunIsSkipped(digits, t, m, Parenthesized(args[m - 1]));
    }
  }

  /** Replacing $m takes the substitution of the parameters above m to that of the parameters from m. */
  lemma {:induction false} ReplaceIsStep(s: string, args: seq<string>, m: nat)
    requires Sound(s, |args|) && Clean(args) && 1 <= m <= |args|
    ensures Replace(Substitute(s, args, m), Placeholder(m), Parenthesized(args[m - 1])) == Substitute(s, args, m - 1)
    decreases |s|
  {
    if s != "" {
      if StartsWithPlaceholder(s) {
        var rest := AfterPlaceholder(s);
        ReplaceIsStep(rest, args, m);
        SubstitutedStart(rest, args, m);
        HeadStep(Run(s), Substitute(rest, args, m), args, m);
      } else {
        ReplaceIsStep(s[1..], args, m);
        if s[0] == '$' {
          SubstitutedStart(s[1..], args, m);
        }
        CharacterIsSkipped(s[0], Substitute(s[1..], args, m), m, Parenthesized(args[m - 1]));
      }
    }
  }

  lemma {:induction false} InlinedIsSubstituted(s: string, args: seq<string>, m: nat)
    requires Sound(s, |args|) && Clean(args) && m <= |args|
    ensures Inlined(Substitute(s, args, m), args, m) == Substitute(s, args, 0)
  {
    if m > 0 {
      ReplaceIsStep(s, args, m);
      InlinedIsSubstituted(s, args, m - 1);
    }
  }

  /** For clean arguments and a sound body, replacing one after another is simultaneous substitution, for any number of
      arguments. */
  lemma InliningIsSubstitution(body: string, args: seq<string>)
    requires Sound(body, |args|) && Clean(args)
    ensures Inlined(body, args, |args|) == Substitute(body, args, 0)
  {
    NothingAboveAll(body, args);
    InlinedIsSubstituted(body, args, |args|);
  }

  // ----- Exactly for clean arguments -----

  /** The first difference is a parenthesis in t where s has a dollar sign. */
  ghost predicate Marked(s: string, t: string) {
    exists p: nat :: MarkedAt(s, t, p)
  }

  predicate MarkedAt(s: string, t: string, p: nat) {
    p < |s| && p < |t| && s[..p] == t[..p] && s[p] == '$' && t[p] == '('
  }

  lemma MarkedComposes(s: string, t: string, u: string)
    requires Marked(s, t) && (u == t || Marked(t, u))
    ensures Marked(s, u) && s != u
  {
    var p: nat :| MarkedAt(s, t, p);
    if u == t {
      assert MarkedAt(s, u, p);
    } else {
      var q: nat :| MarkedAt(t, u, q);
      var first := if p <= q then p else q;
      assert t[..p][..first] == t[..first] == t[..q][..first];
      assert s[..p][..first] == s[..first] && u[..q][..first] == u[..first];
      assert p < q ==> t[..q][p] == t[p] && u[..q][p] == u[p];
      assert q < p ==> s[..p][q] == s[q];
      assert MarkedAt(s, u, first);
    }
  }

  /** A replacement leaves a mark exactly if there is something to replace. */
  lemma {:induction false} ReplaceMarks(s: string, k: nat, replacement: string)
    requires replacement != "" && replacement[0] == '('
    ensures var r := Replace(s, Placeholder(k), replacement);
            if Occurs(Placeholder(k), s) then Marked(s, r) else r == s
  {
    var p, r := Placeholder(k), Replace(s, Placeholder(k), replacement);
    if s == "" {
    } else if PrefixOf(p, s) {
      assert s[0] == s[..|p|][0];
      assert MarkedAt(s, r, 0);
    } else {
      ReplaceMarks(s[1..], k, replacement);
      var rest := Replace(s[1..], p, replacement);
      if Occurs(p, s[1..]) {
        var at: nat :| MarkedAt(s[1..], rest, at);
        assert r == [s[0]] + rest && s == [s[0]] + s[1..];
        assert s[..at + 1] == [s[0]] + s[1..][..at] && r[..at + 1] == [s[0]] + rest[..at];
        assert MarkedAt(s, r, at + 1);
      }
    }
  }

  lemma {:induction false} InlinedMarks(s: string, args: seq<string>, m: nat)
    requires m <= |args|
    ensures Inlined(s, args, m) == s || Marked(s, Inlined(s, args, m))
    ensures (exists k :: 1 <= k <= m && Occurs(Placeholder(k), s)) ==> Marked(s, Inlined(s, args, m))
    decreases m
  {
    if m > 0 {
      var t := Replace(s, Placeholder(m), Parenthesized(args[m - 1]));
      ReplaceMarks(s, m, Parenthesized(args[m - 1]));
      InlinedMarks(t, args, m - 1);
      if Occurs(Placeholder(m), s) {
        MarkedComposes(s, t, Inlined(s, args, m));
      }
    }
  }

  /** The body that consists of one parameter. */
  lemma LoneParameter(k: nat, n: nat)
    requires 1 <= k <= n
    ensures var s := Placeholder(k);
            StartsWithPlaceholder(s) && Run(s) == OfNat(k) && AfterPlaceholder(s) == "" && Sound(s, n)
  {
    var s := Placeholder(k);
    var run := DigitRun(s[1..]);
    assert s[1..] == OfNat(k);
    assert run == |OfNat(k)|;
    assert Run(s) == OfNat(k);
  }

  lemma {:induction false} LoneParameterInlined(k: nat, args: seq<string>, m: nat)
    requires 1 <= k <= m <= |args|
    ensures Inlined(Placeholder(k), args, m) == Inlined(Parenthesized(args[k - 1]), args, k - 1)
    decreases m
  {
    var p, replacement := Placeholder(k), Parenthesized(args[m - 1]);
    assert p + "" == p && replacement + "" == replacement;
    if m == k {
      MatchIsReplaced(p, "", replacement);
    } else {
      SmallerIsSkipped(k, m, "", replacement);
      LoneParameterInlined(k, args, m - 1);
    }
  }

  ghost predicate InlinesRightly(body: string, args: seq<string>) {
    Inlined(body, args, |args|) == Substitute(body, args, 0)
  }

  /** For the given arguments, inlining is substitution in every body exactly if they are clean. */
  lemma {:induction false} InliningIsSubstitutionIff(args: seq<string>)
    ensures (forall body :: Sound(body, |args|) ==> InlinesRightly(body, args)) <==> Clean(args)
  {
    if Clean(args) {
      forall body | Sound(body, |args|)
        ensures InlinesRightly(body, args)
      {
        InliningIsSubstitution(body, args);
      }
    } else {
      var j, k :| 0 <= j < |args| && 1 <= k <= j && Occurs(Placeholder(k), args[j]);
      ParenthesizedChanges(args, j, k);
      UncleanArgument(args, j + 1);
      LoneParameter(j + 1, |args|);
    }
  }

  lemma UncleanArgument(args: seq<string>, k: nat)
    requires 1 <= k <= |args| && Inlined(Parenthesized(args[k - 1]), args, k - 1) != Parenthesized(args[k - 1])
    ensures !InlinesRightly(Placeholder(k), args)
  {
    LoneParameterInlined(k, args, |args|);
    LoneParameterSubstituted(k, args);
  }

  lemma ParenthesizedChanges(args: seq<string>, j: nat, k: nat)
    requires 1 <= k <= j < |args| && Occurs(Placeholder(k), args[j])
    ensures Inlined(Parenthesized(args[j]), args, j) != Parenthesized(args[j])
  {
    OccursInParentheses(Placeholder(k), args[j]);
    InlinedDiffers(Parenthesized(args[j]), args, j, k);
  }

  lemma InlinedDiffers(s: string, args: seq<string>, m: nat, k: nat)
    requires 1 <= k <= m <= |args| && Occurs(Placeholder(k), s)
    ensures Inlined(s, args, m) != s
  {
    InlinedMarks(s, args, m);
    MarkedComposes(s, Inlined(s, args, m), Inlined(s, args, m));
  }

  lemma LoneParameterSubstituted(k: nat, args: seq<string>)
    requires 1 <= k <= |args|
    ensures Substitute(Placeholder(k), args, 0) == Parenthesized(args[k - 1])
  {
    LoneParameter(k, |args|);
    NatValueOfNat(k);
    var replacement := Parenthesized(args[k - 1]);
    assert replacement + "" == replacement;
  }

  lemma OccursInParentheses(pattern: string, a: string)
    requires Occurs(pattern, a)
    ensures Occurs(pattern, Parenthesized(a))
  {
    assert Parenthesized(a)[1..] == a + ")";
    OccursInside(pattern, a, ")");
  }

  lemma {:induction false} OccursInside(pattern: string, s: string, t: string)
    requires Occurs(pattern, s)
    ensures Occurs(pattern, s + t)
  {
    if PrefixOf(pattern, s) {
      assert (s + t)[..|pattern|] == s[..|pattern|];
    } else {
      OccursInside(pattern, s[1..], t);
      assert (s + t)[1..] == s[1..] + t;
    }
  }

  // ----- Exactly for sound bodies -----

  predicate NoDigitFirst(s: string) {
    s != "" ==> !IsDigit(s[0])
  }

  lemma {:induction false} InlinedSkips(c: char, t: string, args: seq<string>, m: nat)
    requires m <= |args| && (c != '$' || NoDigitFirst(t))
    ensures Inlined([c] + t, args, m) == [c] + Inlined(t, args, m)
    ensures NoDigitFirst(t) ==> NoDigitFirst(Inlined(t, args, m))
    decreases m
  {
    if m > 0 {
      CharacterIsSkipped(c, t, m, Parenthesized(args[m - 1]));
      InlinedSkips(c, Replace(t, Placeholder(m), Parenthesized(args[m - 1])), args, m - 1);
    }
  }

  lemma {:induction false} InlinedHead(digits: string, t: string, args: seq<string>, m: nat)
    requires AllDigits(digits) && SoundRun(digits, |args|) && m <= |args| && Clean(args) && NoDigitFirst(t)
    ensures Inlined(Head(digits, args, m) + t, args, m) == Head(digits, args, 0) + Inlined(t, args, m)
    decreases m
  {
    if m > 0 {
      HeadStep(digits, t, args, m);
      InlinedHead(digits, Replace(t, Placeholder(m), Parenthesized(args[m - 1])), args, m - 1);
    }
  }

  lemma {:induction false} InlinedRun(d: string, t: string, args: seq<string>, m: nat)
    requires m <= |args| && AllDigits(d) && NoDigitFirst(t) && Untouched(d, m)
    ensures Inlined("$" + d + t, args, m) == "$" + d + Inlined(t, args, m)
    decreases m
  {
    if m > 0 {
      RunIsSkipped(d, t, m, Parenthesized(args[m - 1]));
      InlinedRun(d, Replace(t, Placeholder(m), Parenthesized(args[m - 1])), args, m - 1);
    }
  }

  /** Digits that begin with a number to be replaced do not survive. */
  lemma {:induction false} InlinedInPart(d: string, t: string, args: seq<string>, m: nat)
    requires m <= |args| && AllDigits(d) && NoDigitFirst(t) && !Untouched(d, m)
    ensures Inlined("$" + d + t, args, m) != "" && Inlined("$" + d + t, args, m)[0] == '('
    decreases m
  {
    var s, p, replacement := "$" + d + t, Placeholder(m), Parenthesized(args[m - 1]);
    if PrefixOf(OfNat(m), d) {
      assert s[..|p|] == "$" + d[..|OfNat(m)|];
      var r := replacement + Replace(s[|p|..], p, replacement);
      assert r == ['('] + r[1..];
      InlinedSkips('(', r[1..], args, m - 1);
    } else {
      RunIsSkipped(d, t, m, replacement);
      InlinedInPart(d, Replace(t, p, replacement), args, m - 1);
    }
  }

  /** Digits that begin with a number to be replaced have no leading zero, so they mean a larger one or are it. */
  lemma OutsideIfUnsound(digits: string, n: nat)
    requires AllDigits(digits) && !SoundRun(digits, n) && !Untouched(digits, n)
    ensures !(1 <= NatValue(digits) <= n)
  {
    var j :| 1 <= j <= n && PrefixOf(OfNat(j), digits);
    assert digits[0] == digits[..|OfNat(j)|][0];
    OfNatOfValue(digits);
  }

  /** Up to the first parameter that is not sound, inlining and substitution agree; there they differ. */
  lemma {:induction false} UnsoundDiffers(s: string, args: seq<string>)
    requires Clean(args) && !Sound(s, |args|)
    ensures Inlined(s, args, |args|) != Substitute(s, args, 0)
    decreases |s|
  {
    if !StartsWithPlaceholder(s) {
      assert s == [s[0]] + s[1..];
      InlinedSkips(s[0], s[1..], args, |args|);
      UnsoundDiffers(s[1..], args);
      Cancel([s[0]], Inlined(s[1..], args, |args|), Substitute(s[1..], args, 0));
    } else if SoundRun(Run(s), |args|) {
      var rest := AfterPlaceholder(s);
      UnsoundDiffers(rest, args);
      InlinedHead(Run(s), rest, args, |args|);
      Cancel(Head(Run(s), args, 0), Inlined(rest, args, |args|), Substitute(rest, args, 0));
    } else {
      UnsoundRunDiffers(Run(s), AfterPlaceholder(s), args);
    }
  }

  /** One of the two begins with the dollar sign and the other with a parenthesis. */
  lemma UnsoundRunDiffers(digits: string, t: string, args: seq<string>)
    requires AllDigits(digits) && !SoundRun(digits, |args|) && NoDigitFirst(t)
    ensures var inlined := Inlined("$" + digits + t, args, |args|);
            var substituted := Head(digits, args, 0) + Substitute(t, args, 0);
            inlined != "" && substituted != "" && inlined[0] != substituted[0]
  {
    var head := Head(digits, args, 0);
    FirstOf(head, Substitute(t, args, 0));
    if Untouched(digits, |args|) {
      InlinedRun(digits, t, args, |args|);
      FirstOf("$" + digits, Inlined(t, args, |args|));
    } else {
      InlinedInPart(digits, t, args, |args|);
      OutsideIfUnsound(digits, |args|);
    }
  }

  lemma FirstOf(a: string, b: string)
    requires a != ""
    ensures a + b != "" && (a + b)[0] == a[0]
  {
  }

  lemma Cancel(a: string, b: string, c: string)
    requires b != c
    ensures a + b != a + c
  {
    assert (a + b)[|a|..] == b && (a + c)[|a|..] == c;
  }

  /** With clean arguments a body is inlined rightly exactly if it is sound: each of its parameters is one of $1 to $n
      as printed, or is none of them and does not begin with one. */
  lemma {:induction false} InlinesRightlyIff(body: string, args: seq<string>)
    requires Clean(args)
    ensures InlinesRightly(body, args) <==> Sound(body, |args|)
  {
    if Sound(body, |args|) {
      InliningIsSubstitution(body, args);
    } else {
      UnsoundDiffers(body, args);
    }
  }

  /** So whether it is does not depend on which clean arguments are given. */
  lemma {:induction false} BodyInlinesRightlyIff(body: string, n: nat)
    ensures (forall args :: |args| == n && Clean(args) ==> InlinesRightly(body, args)) <==> Sound(body, n)
  {
    if Sound(body, n) {
      forall args | |args| == n && Clean(args)
        ensures InlinesRightly(body, args)
      {
        InlinesRightlyIff(body, args);
      }
    } else {
      var args := seq(n, i => "");
      InlinesRightlyIff(body, args);
    }
  }

  /** A parameter that the call does not supply is replaced in part by a shorter one. */
  lemma MissingParameter(a: string)
    ensures Inlined("$10", [a], 1) == Parenthesized(a) + "0"
    ensures Substitute("$10", [a], 0) == "$10"
  {
    assert OfNat(1) == "1" && OfNat(10) == "10";
    assert Placeholder(1) == "$1";
    MatchIsReplaced("$1", "0", Parenthesized(a));
    assert "$1" + "0" == "$10";
    SkipOne('0', "", "$1", Parenthesized(a));
    assert ['0'] + "" == "0";
    LoneParameter(10, 10);
  }
}
