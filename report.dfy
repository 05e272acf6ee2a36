/** The decisions behind the runner's terminal output (`printError` and `getMaxWidth` in
    snapshot.go); the writes themselves, colours and padding are not modelled. */
module Report {
  import opened Wrappers
  import opened Runner
  import Tally

  /** What `printError(err, quiet)` is meant to write to stderr, if anything: a diff, unchanged,
      only when not quiet, and any other error always, on a line of its own. `EmittedAsWritten`
      below is the code as written, which alters a diff holding '%'. */
  function Emitted(err: Option<CaseError>, quiet: bool): (out: Option<string>)
    ensures out.None? <==> err.None? || (err.value.NonemptyDiffError? && quiet)
    ensures err.Some? && err.value.NonemptyDiffError? && !quiet ==> out == Some(err.value.diff)
    ensures err.Some? && err.value.PlainError? ==> out == Some(err.value.text + "\n")
  {
    match err
    case None => None
    case Some(NonemptyDiffError(diff)) => if quiet then None else Some(diff)
    case Some(PlainError(text)) => Some(text + "\n")
  }

  /** Quiet mode suppresses diffs and nothing else. */
  lemma QuietHidesOnlyDiffs(err: Option<CaseError>)
    ensures Emitted(err, true) == (if err.Some? && err.value.NonemptyDiffError? then None else Emitted(err, false))
  {
  }

  /** `diff` reports its own trouble (an unreadable snapshot, say) on the same output it uses for
      differences, so a failing `diff` that printed a message is a `NonemptyDiffError` like any
      difference, and quiet mode hides it. */
  lemma QuietHidesDiffTrouble(store: Store, path: string, env: Env)
    requires SnapshotPath(path) in store && RanCleanly(env)
    requires env.diff.err.Some? && env.diff.text != ""
    ensures Classify(store, path, false, env) == CaseResult(Tally.Failed, env.elapsed, Some(NonemptyDiffError(env.diff.text)))
    ensures Emitted(Classify(store, path, false, env).err, true) == None
    ensures Emitted(Classify(store, path, false, env).err, false) == Some(env.diff.text)
  {
  }

  // ---------------------------------------------------------------------------------------
  // printError as written: the diff is passed to fmt.Fprintf as its format string

  /** Characters that, right after a '%', begin flags, a width, a precision or an argument index. */
  predicate IsDirectiveModifier(c: char) {
    c == '#' || c == '+' || c == '-' || c == ' ' || c == '.' || c == '*' || c == '[' || '0' <= c <= '9'
  }

  /** Format strings whose every '%' is followed by nothing or by a plain verb character. */
  predicate PlainDirectives(s: string) {
    |s| < 2 || ((s[0] != '%' || !IsDirectiveModifier(s[1])) && PlainDirectives(s[1..]))
  }

  /** What `fmt` prints for a verb `c` that has no argument left. */
  function MissingVerb(c: char): string {
    "%!" + [c] + "(MISSING)"
  }

  /** Go's `fmt.Sprintf(s)` with no arguments, for `PlainDirectives` format strings: "%%" prints
      '%', a trailing '%' prints "%!(NOVERB)", and any other verb c prints "%!c(MISSING)". */
  function FormatNoArgs(s: string): (out: string)
    requires PlainDirectives(s)
    ensures '%' !in s ==> out == s
  {
    if s == [] then []
    else if s[0] != '%' then [s[0]] + FormatNoArgs(s[1..])
    else if |s| == 1 then "%!(NOVERB)"
    else
      assert PlainDirectives(s[2..]) by {
        assert PlainDirectives(s[1..]) && s[1..][1..] == s[2..];
      }
      (if s[1] == '%' then "%" else MissingVerb(s[1])) + FormatNoArgs(s[2..])
  }

  /** `printError` as the source has it: `fmt.Fprintf(os.Stderr, nderr.diff)` reads the diff as
      a format string. */
  function EmittedAsWritten(err: Option<CaseError>, quiet: bool): (out: Option<string>)
    requires err.Some? && err.value.NonemptyDiffError? ==> PlainDirectives(err.value.diff)
    ensures out.None? <==> Emitted(err, quiet).None?
    ensures err.Some? && err.value.NonemptyDiffError? && !quiet && '%' !in err.value.diff ==>
      out == Emitted(err, quiet)
  {
    match err
    case None => None
    case Some(NonemptyDiffError(diff)) => if quiet then None else Some(FormatNoArgs(diff))
    case Some(PlainError(text)) => Some(text + "\n")
  }

  /** A character other than '%' is copied as it is. */
  lemma FormatOrdinary(c: char, s: string)
    requires c != '%' && PlainDirectives(s)
    ensures PlainDirectives([c] + s) && FormatNoArgs([c] + s) == [c] + FormatNoArgs(s)
  {
    assert ([c] + s)[1..] == s;
  }

  /** '%' followed by a verb other than '%', with no argument left for it, prints
      "%!verb(MISSING)". */
  lemma FormatMissingVerb(c: char, s: string)
    requires c != '%' && !IsDirectiveModifier(c) && PlainDirectives(s)
    ensures PlainDirectives(['%', c] + s)
    ensures FormatNoArgs(['%', c] + s) == MissingVerb(c) + FormatNoArgs(s)
  {
    assert (['%', c] + s)[1..] == [c] + s && (['%', c] + s)[2..] == s;
    assert ([c] + s)[1..] == s;
  }

  /** Splitting off the first character of the left operand of a concatenation. */
  lemma ConsConcat(t: string, u: string)
    requires t != []
    ensures t + u == [t[0]] + (t[1..] + u)
  {
    assert t == [t[0]] + t[1..];
  }

  /** Text without '%' passes through `Sprintf` unchanged, whatever follows it. */
  lemma {:induction false} FormatPlainPrefix(t: string, s: string)
    requires '%' !in t && PlainDirectives(s)
    ensures PlainDirectives(t + s) && FormatNoArgs(t + s) == t + FormatNoArgs(s)
  {
    if t == [] {
      assert t + s == s;
    } else {
      assert '%' !in t[1..] by { assert t == [t[0]] + t[1..]; }
      FormatPlainPrefix(t[1..], s);
      FormatOrdinary(t[0], t[1..] + s);
      ConsConcat(t, s);
      ConsConcat(t, FormatNoArgs(s));
    }
  }

  /** A line of plain text ending in '%' and a verb character (a diff line "< 5%" and its
      newline, say) comes out of `Sprintf` with "%!verb(MISSING)" in place of the two. */
  lemma FormatPlainThenVerb(t: string, c: char)
    requires '%' !in t && c != '%' && !IsDirectiveModifier(c)
    ensures PlainDirectives(t + ['%', c])
    ensures FormatNoArgs(t + ['%', c]) == t + MissingVerb(c)
  {
    var empty: string := [];
    FormatMissingVerb(c, empty);
    assert ['%', c] + empty == ['%', c] && MissingVerb(c) + FormatNoArgs(empty) == MissingVerb(c);
    FormatPlainPrefix(t, ['%', c]);
  }

  /** Any diff whose text is plain apart from a final '%' and verb is printed altered, so a
      failing case's diff is not shown as `diff` produced it. */
  lemma PercentInDiffIsMangled(t: string, c: char)
    requires '%' !in t && c != '%' && !IsDirectiveModifier(c)
    ensures PlainDirectives(t + ['%', c])
    ensures var err := Some(NonemptyDiffError(t + ['%', c]));
      && EmittedAsWritten(err, false) == Some(t + MissingVerb(c))
      && Emitted(err, false) == Some(t + ['%', c])
      && EmittedAsWritten(err, false) != Emitted(err, false)
  {
    FormatPlainThenVerb(t, c);
  }

  /** When the line "5%" of the snapshot is missing from the new output, `diff` prints "1d0", a
      newline, "< 5%" and a newline; that is printed with "%!" followed by the newline and
      "(MISSING)" in place of the final "%" and newline. */
  lemma PercentInDiffExample()
    ensures PlainDirectives("1d0\n< 5" + "%\n")
    ensures EmittedAsWritten(Some(NonemptyDiffError("1d0\n< 5" + "%\n")), false) == Some("1d0\n< 5" + "%!\n(MISSING)")
    ensures Emitted(Some(NonemptyDiffError("1d0\n< 5" + "%\n")), false) == Some("1d0\n< 5" + "%\n")
  {
    PercentInDiffIsMangled("1d0\n< 5", '\n');
    assert MissingVerb('\n') == "%!\n(MISSING)";
  }

  // ---------------------------------------------------------------------------------------
  // getMaxWidth

  /** `getMaxWidth(paths)`: the length of the longest base name (`filepath.Base`, passed as
      `base`), or 0 when there are no paths. */
  method GetMaxWidth(paths: seq<string>, base: string -> string) returns (maxwidth: nat)
    ensures forall p :: p in paths ==> |base(p)| <= maxwidth
    ensures maxwidth == 0 || exists p :: p in paths && |base(p)| == maxwidth
  {
    maxwidth := 0;
    for i := 0 to |paths|
      invariant forall p :: p in paths[..i] ==> |base(p)| <= maxwidth
      invariant maxwidth == 0 || exists p :: p in paths[..i] && |base(p)| == maxwidth
    {
      var name := base(paths[i]);
      assert paths[..i + 1] == paths[..i] + [paths[i]];
      if |name| > maxwidth {
        maxwidth := |name|;
      }
    }
    assert paths[..|paths|] == paths;
  }
}
