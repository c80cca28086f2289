/**
 * The build script's reading of the leptos and leptos_router versions from
 * the text of the manifest. Reading the file and printing the
 * `cargo:rustc-env` lines are not modelled: each of the two values the
 * script sets (`LEPTOS_VERSION`, `LEPTOS_ROUTER_VERSION`) is a function from
 * the manifest's text to an optional version.
 */
module Build {
  import opened Wrappers
  import opened Strings

  const LeptosMarker: string := "leptos = "
  const RouterMarker: string := "leptos_router = "
  /** The leptos version follows this text; it is 11 characters long. */
  const VersionMarker: string := "version = \""

  /** `lines().find(|line| line.contains(marker))`: the index of the first line containing `marker`. */
  function FindLine(lines: seq<string>, marker: string): (r: Option<nat>)
    ensures r.Some? ==> r.value < |lines| && Contains(lines[r.value], marker)
    ensures r.Some? ==> forall j :: 0 <= j < r.value ==> !Contains(lines[j], marker)
    ensures r.None? <==> forall j :: 0 <= j < |lines| ==> !Contains(lines[j], marker)
  {
    if lines == [] then None
    else if Contains(lines[0], marker) then Some(0)
    else
      match FindLine(lines[1..], marker)
      case None => None
      case Some(n) => Some(n + 1)
  }

  /** `s[..end]` for the first `"` of `s`, at `end`: the text before that quote. */
  function TextBeforeQuote(s: string): (r: Option<string>)
    ensures r.Some? ==> |r.value| < |s| && s[..|r.value|] == r.value && s[|r.value|] == '"' && '"' !in r.value
    ensures r.None? <==> '"' !in s
  {
    match Find(s, "\"")
    case None =>
      NoQuoteFound(s);
      None
    case Some(end) =>
      QuoteFound(s, end);
      Some(s[..end])
  }

  /**
   * The leptos version in its line: the text from just after the first
   * `version = "` up to the next `"`, if both are there.
   */
  function VersionInLeptosLine(line: string): (r: Option<string>)
    ensures r.Some? ==> Find(line, VersionMarker).Some?
    ensures r.Some? ==>
              var start := Find(line, VersionMarker).value + |VersionMarker|;
              && start + |r.value| < |line|
              && line[start..start + |r.value|] == r.value
              && line[start + |r.value|] == '"'
              && '"' !in r.value
    ensures r.None? <==>
              || Find(line, VersionMarker).None?
              || '"' !in line[Find(line, VersionMarker).value + |VersionMarker|..]
  {
    match Find(line, VersionMarker)
    case None => None
    case Some(versionStart) =>
      var r := TextBeforeQuote(line[versionStart + 11..]);
      TextAfter(line, versionStart + 11, r);
      r
  }

  /**
   * The router version in its line: the text strictly between the first and
   * the second `"` of the line, if it has two.
   */
  function VersionInRouterLine(line: string): (r: Option<string>)
    ensures r.Some? ==> Find(line, "\"").Some?
    ensures r.Some? ==>
              var first := Find(line, "\"").value;
              && first + 1 + |r.value| < |line|
              && line[first + 1..first + 1 + |r.value|] == r.value
              && line[first + 1 + |r.value|] == '"'
              && '"' !in r.value
    ensures r.None? <==>
              || Find(line, "\"").None?
              || '"' !in line[Find(line, "\"").value + 1..]
  {
    match Find(line, "\"")
    case None => None
    case Some(versionStart) =>
      var r := TextBeforeQuote(line[versionStart + 1..]);
      TextAfter(line, versionStart + 1, r);
      r
  }

  /** `LEPTOS_VERSION`: only the first line containing `leptos = ` is read. */
  function LeptosVersion(cargoToml: string): (r: Option<string>)
    ensures r.Some? ==> '"' !in r.value
    ensures FindLine(Lines(cargoToml), LeptosMarker).None? ==> r.None?
    ensures FindLine(Lines(cargoToml), LeptosMarker).Some? ==>
              r == VersionInLeptosLine(Lines(cargoToml)[FindLine(Lines(cargoToml), LeptosMarker).value])
  {
    var lines := Lines(cargoToml);
    match FindLine(lines, LeptosMarker)
    case None => None
    case Some(n) => VersionInLeptosLine(lines[n])
  }

  /** `LEPTOS_ROUTER_VERSION`: only the first line containing `leptos_router = ` is read. */
  function RouterVersion(cargoToml: string): (r: Option<string>)
    ensures r.Some? ==> '"' !in r.value
    ensures FindLine(Lines(cargoToml), RouterMarker).None? ==> r.None?
    ensures FindLine(Lines(cargoToml), RouterMarker).Some? ==>
              r == VersionInRouterLine(Lines(cargoToml)[FindLine(Lines(cargoToml), RouterMarker).value])
  {
    var lines := Lines(cargoToml);
    match FindLine(lines, RouterMarker)
    case None => None
    case Some(n) => VersionInRouterLine(lines[n])
  }

  // ---------------------------------------------------------------------
  // Helpers about the quote character

  /** The text from `from` up to the next quote, stated on `line` itself. */
  lemma TextAfter(line: string, from: nat, r: Option<string>)
    requires from <= |line|
    requires r == TextBeforeQuote(line[from..])
    ensures r.Some? ==>
              && from + |r.value| < |line|
              && line[from..from + |r.value|] == r.value
              && line[from + |r.value|] == '"'
              && '"' !in r.value
    ensures r.None? <==> '"' !in line[from..]
  {
    if r.Some? {
      assert line[from..from + |r.value|] == line[from..][..|r.value|];
    }
  }

  lemma NoQuoteFound(s: string)
    requires Find(s, "\"").None?
    ensures '"' !in s && multiset(s)['"'] == 0
  {
    forall i | 0 <= i < |s| ensures s[i] != '"' {
      assert !OccursAt(s, "\"", i);
      assert s[i..i + 1] == [s[i]];
    }
  }

  /** The quotes of `s` are the one at `at` and those after it. */
  lemma QuoteCount(s: string, at: nat)
    requires Find(s, "\"") == Some(at)
    ensures multiset(s)['"'] == 1 + multiset(s[at + 1..])['"']
  {
    QuoteFound(s, at);
    assert multiset(s) == multiset(s[..at]) + multiset("\"") + multiset(s[at + 1..]);
    assert '"' !in multiset(s[..at]);
  }

  lemma QuoteFound(s: string, at: nat)
    requires Find(s, "\"") == Some(at)
    ensures at < |s| && s[at] == '"' && '"' !in s[..at]
    ensures s == s[..at] + "\"" + s[at + 1..]
  {
    assert OccursAt(s, "\"", at);
    assert s[at..at + 1] == "\"";
    forall i | 0 <= i < at ensures s[i] != '"' {
      assert !OccursAt(s, "\"", i);
      assert s[i..i + 1] == [s[i]];
    }
  }

  // ---------------------------------------------------------------------
  // Properties

  /** The router version is the text strictly between the line's first two quotes. */
  lemma RouterVersionBetweenFirstQuotes(line: string)
    requires VersionInRouterLine(line).Some?
    ensures var v := VersionInRouterLine(line).value;
            exists prefix, suffix :: line == prefix + "\"" + v + "\"" + suffix && '"' !in prefix && '"' !in v
  {
    var first := Find(line, "\"").value;
    QuoteFound(line, first);
    SplitAroundQuotes(line, first, VersionInRouterLine(line).value);
  }

  lemma SplitAroundQuotes(line: string, first: nat, v: string)
    requires first + 1 + |v| < |line|
    requires line[first] == '"' && '"' !in line[..first]
    requires line[first + 1..first + 1 + |v|] == v && line[first + 1 + |v|] == '"' && '"' !in v
    ensures exists prefix, suffix :: line == prefix + "\"" + v + "\"" + suffix && '"' !in prefix && '"' !in v
  {
    var prefix, suffix := line[..first], line[first + 2 + |v|..];
    assert line == prefix + "\"" + v + "\"" + suffix;
  }

  /** The leptos version follows the line's first `version = "` and runs to the next quote. */
  lemma LeptosVersionAfterMarker(line: string)
    requires VersionInLeptosLine(line).Some?
    ensures var v := VersionInLeptosLine(line).value;
            exists prefix, suffix ::
              && line == prefix + VersionMarker + v + "\"" + suffix
              && Find(line, VersionMarker) == Some(|prefix|)
              && '"' !in v
  {
    var v := VersionInLeptosLine(line).value;
    var start := Find(line, VersionMarker).value;
    assert OccursAt(line, VersionMarker, start);
    var prefix, suffix := line[..start], line[start + |VersionMarker| + |v| + 1..];
    assert line[start..start + |VersionMarker|] == VersionMarker;
    assert line == prefix + VersionMarker + v + "\"" + suffix;
  }

  /** A router line yields a version exactly when it has at least two quotes. */
  lemma RouterVersionNeedsTwoQuotes(line: string)
    ensures VersionInRouterLine(line).Some? <==> multiset(line)['"'] >= 2
  {
    match Find(line, "\"")
    case None =>
      NoQuoteFound(line);
    case Some(first) =>
      QuoteCount(line, first);
      QuoteFound(line, first);
      var rest := line[first + 1..];
      if VersionInRouterLine(line).Some? {
        var v := VersionInRouterLine(line).value;
        assert rest[|v|] == '"';
        assert rest[|v|] in multiset(rest);
      }
  }

  /**
   * Only the first line holding `leptos = ` is read. When that line has no
   * `version = "`, no leptos version is emitted, whatever the later lines
   * hold. The lines before it (`pre`, empty or ending at a line break, as
   * `[package]` and its fields do) hold no `leptos = `.
   */
  lemma FirstLeptosLineOnly(pre: string, first: string, rest: string)
    requires pre == [] || pre[|pre| - 1] == '\n'
    requires forall k :: 0 <= k < |Lines(pre)| ==> !Contains(Lines(pre)[k], LeptosMarker)
    requires '\n' !in first
    requires Contains(StripCarriageReturn(first), LeptosMarker)
    requires !Contains(StripCarriageReturn(first), VersionMarker)
    ensures LeptosVersion(pre + first + "\n" + rest).None?
  {
    LinesAround(pre, first, rest);
    LeptosLineWithoutVersion(pre + first + "\n" + rest, Lines(pre), StripCarriageReturn(first), Lines(rest));
  }

  /** A manifest whose first `leptos = ` line, `line`, lacks `version = "` has no leptos version. */
  lemma LeptosLineWithoutVersion(cargoToml: string, before: seq<string>, line: string, after: seq<string>)
    requires Lines(cargoToml) == before + [line] + after
    requires forall k :: 0 <= k < |before| ==> !Contains(before[k], LeptosMarker)
    requires Contains(line, LeptosMarker) && !Contains(line, VersionMarker)
    ensures LeptosVersion(cargoToml).None?
  {
    FindLineAfter(before, line, after, LeptosMarker);
    assert Lines(cargoToml)[|before|] == line;
  }

  /** A line holding `marker` after lines that do not is the one found. */
  lemma FindLineAfter(before: seq<string>, line: string, after: seq<string>, marker: string)
    requires forall k :: 0 <= k < |before| ==> !Contains(before[k], marker)
    requires Contains(line, marker)
    ensures FindLine(before + [line] + after, marker) == Some(|before|)
  {
    var lines := before + [line] + after;
    assert lines[|before|] == line;
    assert forall k :: 0 <= k < |before| ==> lines[k] == before[k];
  }

  /**
   * An occurrence of `leptos = ` never overlaps one of `leptos_router = `:
   * a line is found by both searches only when it holds both texts apart.
   */
  lemma MarkersNeverOverlap(line: string, i: nat, j: nat)
    requires OccursAt(line, LeptosMarker, i) && OccursAt(line, RouterMarker, j)
    ensures i + |LeptosMarker| <= j || j + |RouterMarker| <= i
  {
    assert forall p :: i <= p < i + |LeptosMarker| ==> line[p] == line[i..i + |LeptosMarker|][p - i];
    assert forall p :: j <= p < j + |RouterMarker| ==> line[p] == line[j..j + |RouterMarker|][p - j];
    // Each marker has its only `l` first, and they differ at offset 6.
    assert forall k :: 0 < k < |RouterMarker| ==> RouterMarker[k] != 'l';
    assert forall k :: 0 < k < |LeptosMarker| ==> LeptosMarker[k] != 'l';
    assert line[i] == 'l' && line[j] == 'l';
    assert line[i + 6] == ' ' && line[j + 6] == '_';
    assert i != j;
    assert !(j < i < j + |RouterMarker|);
    assert !(i < j < i + |LeptosMarker|);
  }

  /** So the router's marker by itself is not found by the leptos search. */
  lemma RouterMarkerIsNotLeptosLine()
    ensures !Contains(RouterMarker, LeptosMarker)
  {
    forall i: nat ensures !OccursAt(RouterMarker, LeptosMarker, i) {
      if OccursAt(RouterMarker, LeptosMarker, i) {
        assert OccursAt(RouterMarker, RouterMarker, 0);
        MarkersNeverOverlap(RouterMarker, i, 0);
        assert false;
      }
    }
  }
}
