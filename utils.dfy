/**
 * The directive grammar and the output formatter.
 *
 * `extract_commands` is `re.findall(r'\[\[(.*?)\]\]', text)`. The scanner
 * below does what the regular-expression engine does with that pattern: at
 * each position it tries an opener `[[`, extends the lazy body one character
 * at a time until the first closer `]]`, and gives up at that position when a
 * newline comes first (`.` does not match a newline without DOTALL); after a
 * match it resumes just past the closer. `MatchAt` and `Leftmost` state the
 * same thing declaratively, and `ScanIsLeftmost` with `LeftmostUnique` shows
 * that the scanner computes exactly that sequence of matches.
 */
module Utils {
  import opened Wrappers
  import opened Text
  import opened CommandResult

  predicate OpenerAt(t: string, i: int) {
    0 <= i && i + 1 < |t| && t[i] == '[' && t[i + 1] == '['
  }

  predicate CloserAt(t: string, j: int) {
    0 <= j && j + 1 < |t| && t[j] == ']' && t[j + 1] == ']'
  }

  /**
   * The pattern matches at `i` with its closer at `j`: an opener at `i`, a
   * closer at `j`, and between them a body with no newline and no earlier
   * closer (the lazy `.*?` stops at the first one).
   */
  predicate MatchAt(t: string, i: int, j: int) {
    && OpenerAt(t, i)
    && i + 2 <= j
    && CloserAt(t, j)
    && forall m :: i + 2 <= m < j ==> t[m] != '\n' && !CloserAt(t, m)
  }

  /** The pattern matches at position `p`. */
  ghost predicate Opens(t: string, p: int) {
    exists j :: MatchAt(t, p, j)
  }

  /** A match: the index of its opener and of its closer. */
  datatype Span = Span(opener: nat, closer: nat)

  /**
   * `ms` is the sequence of matches `findall` reports when it starts looking
   * at `i`: each match is the leftmost one at or after the end of the
   * previous one, and no match starts anywhere after the last.
   */
  ghost predicate Leftmost(t: string, i: int, ms: seq<Span>)
    decreases |ms|
  {
    if ms == [] then
      forall p :: i <= p ==> !Opens(t, p)
    else
      && i <= ms[0].opener
      && MatchAt(t, ms[0].opener, ms[0].closer)
      && (forall p :: i <= p < ms[0].opener ==> !Opens(t, p))
      && Leftmost(t, ms[0].closer + 2, ms[1..])
  }

  /**
   * The lazy body search from index `k`: the first closer, or `None` when a
   * newline or the end of the text comes before any closer.
   */
  function FindCloser(t: string, k: nat): (r: Option<nat>)
    decreases |t| - k
    ensures r.Some? ==> k <= r.value && CloserAt(t, r.value)
    ensures r.Some? ==> forall m :: k <= m < r.value ==> t[m] != '\n' && !CloserAt(t, m)
    ensures r.None? ==> forall j :: k <= j && CloserAt(t, j) ==> exists m :: k <= m < j && t[m] == '\n'
  {
    if k + 1 >= |t| then None
    else if t[k] == ']' && t[k + 1] == ']' then Some(k)
    else if t[k] == '\n' then None
    else FindCloser(t, k + 1)
  }

  /** The matches `findall` finds from position `i` on. */
  function Scan(t: string, i: nat): (ms: seq<Span>)
    decreases |t| - i
    ensures forall k :: 0 <= k < |ms| ==> i <= ms[k].opener && ms[k].opener + 2 <= ms[k].closer && ms[k].closer + 2 <= |t|
  {
    if i + 1 >= |t| then []
    else if t[i] == '[' && t[i + 1] == '[' then
      match FindCloser(t, i + 2)
      case Some(j) => [Span(i, j)] + Scan(t, j + 2)
      case None => Scan(t, i + 1)
    else Scan(t, i + 1)
  }

  /** The captured group of each match. */
  function Bodies(t: string, ms: seq<Span>): (bs: seq<string>)
    requires forall k :: 0 <= k < |ms| ==> ms[k].opener + 2 <= ms[k].closer <= |t|
    ensures |bs| == |ms|
  {
    seq(|ms|, k requires 0 <= k < |ms| => t[ms[k].opener + 2..ms[k].closer])
  }

  /** `extract_commands(text)`: `None` stands for Python's `None`. */
  function ExtractCommands(text: Option<string>): (r: seq<string>)
    ensures text.None? || text == Some("") ==> r == []
  {
    if text.None? || text.value == "" then [] else Bodies(text.value, Scan(text.value, 0))
  }

  // ---------------------------------------------------------------------------
  // The scanner computes exactly the leftmost-first sequence of matches

  lemma MatchUnique(t: string, i: int, j1: int, j2: int)
    requires MatchAt(t, i, j1) && MatchAt(t, i, j2)
    ensures j1 == j2
  {
  }

  /** When the body search from just past an opener succeeds it finds the match's closer, and when it fails there is no match. */
  lemma FindCloserMeansMatch(t: string, i: nat)
    requires OpenerAt(t, i)
    ensures FindCloser(t, i + 2).Some? ==> MatchAt(t, i, FindCloser(t, i + 2).value)
    ensures FindCloser(t, i + 2).None? ==> !Opens(t, i)
  {
    forall j ensures !(FindCloser(t, i + 2).None? && MatchAt(t, i, j)) {
      if FindCloser(t, i + 2).None? && CloserAt(t, j) && i + 2 <= j {
        var m :| i + 2 <= m < j && t[m] == '\n';
      }
    }
  }

  lemma LeftmostSkip(t: string, i: int, ms: seq<Span>)
    requires !Opens(t, i)
    requires Leftmost(t, i + 1, ms)
    ensures Leftmost(t, i, ms)
  {
    if ms != [] {
      assert forall p :: i <= p < ms[0].opener ==> !Opens(t, p) by {
        forall p | i <= p < ms[0].opener ensures !Opens(t, p) {
          if p > i {
            assert i + 1 <= p < ms[0].opener;
          }
        }
      }
    }
  }

  lemma NothingOpensAtEnd(t: string, i: nat)
    requires i + 1 >= |t|
    ensures Leftmost(t, i, Scan(t, i))
  {
    forall p | i <= p ensures !Opens(t, p) {
      assert !OpenerAt(t, p);
    }
  }

  lemma LeftmostMatch(t: string, i: nat, j: nat)
    requires OpenerAt(t, i) && FindCloser(t, i + 2) == Some(j) && MatchAt(t, i, j)
    requires Leftmost(t, j + 2, Scan(t, j + 2))
    ensures Leftmost(t, i, Scan(t, i))
  {
    var ms := Scan(t, i);
    assert ms == [Span(i, j)] + Scan(t, j + 2);
    assert ms[1..] == Scan(t, j + 2);
  }

  lemma {:induction false} ScanIsLeftmost(t: string, i: nat)
    ensures Leftmost(t, i, Scan(t, i))
    decreases |t| - i
  {
    if i + 1 >= |t| {
      NothingOpensAtEnd(t, i);
    } else if t[i] == '[' && t[i + 1] == '[' {
      FindCloserMeansMatch(t, i);
      match FindCloser(t, i + 2)
      case Some(j) =>
        ScanIsLeftmost(t, j + 2);
        LeftmostMatch(t, i, j);
      case None =>
        ScanIsLeftmost(t, i + 1);
        LeftmostSkip(t, i, Scan(t, i + 1));
    } else {
      assert !OpenerAt(t, i);
      ScanIsLeftmost(t, i + 1);
      LeftmostSkip(t, i, Scan(t, i + 1));
    }
  }

  /** There is only one leftmost-first sequence of matches. */
  lemma {:induction false} LeftmostUnique(t: string, i: int, a: seq<Span>, b: seq<Span>)
    requires Leftmost(t, i, a) && Leftmost(t, i, b)
    ensures a == b
    decreases |a|
  {
    if a != [] {
      assert Opens(t, a[0].opener);
    }
    if b != [] {
      assert Opens(t, b[0].opener);
    }
    if a != [] && b != [] {
      MatchUnique(t, a[0].opener, a[0].closer, b[0].closer);
      LeftmostUnique(t, a[0].closer + 2, a[1..], b[1..]);
      assert a == [a[0]] + a[1..];
      assert b == [b[0]] + b[1..];
    }
  }

  /** Every match of a leftmost sequence is a match, and the matches come in increasing, non-overlapping order. */
  lemma {:induction false} LeftmostOrdered(t: string, i: int, ms: seq<Span>)
    requires Leftmost(t, i, ms)
    ensures forall k :: 0 <= k < |ms| ==> i <= ms[k].opener && MatchAt(t, ms[k].opener, ms[k].closer)
    ensures forall k :: 0 <= k < |ms| - 1 ==> ms[k].closer + 2 <= ms[k + 1].opener
    decreases |ms|
  {
    if ms != [] {
      LeftmostOrdered(t, ms[0].closer + 2, ms[1..]);
      forall k | 0 < k < |ms| ensures ms[0].closer + 2 <= ms[k].opener && MatchAt(t, ms[k].opener, ms[k].closer) {
        assert ms[k] == ms[1..][k - 1];
      }
    }
  }

  // ---------------------------------------------------------------------------
  // What extraction promises

  /** The spans of the matches `findall` reports on a text. */
  function Spans(t: string): (ms: seq<Span>)
    ensures forall k :: 0 <= k < |ms| ==> ms[k].opener + 2 <= ms[k].closer && ms[k].closer + 2 <= |t|
  {
    Scan(t, 0)
  }

  /**
   * The spans the scanner reports are the one leftmost-first sequence of
   * matches of `\[\[(.*?)\]\]` in the text: each is a match, each begins at
   * or after the end of the previous one, and no other sequence of spans has
   * that property.
   */
  lemma SpansAreLeftmost(t: string)
    ensures Leftmost(t, 0, Spans(t))
    ensures forall ms :: Leftmost(t, 0, ms) ==> ms == Spans(t)
    ensures forall k :: 0 <= k < |Spans(t)| ==> MatchAt(t, Spans(t)[k].opener, Spans(t)[k].closer)
    ensures forall k :: 0 <= k < |Spans(t)| - 1 ==> Spans(t)[k].closer + 2 <= Spans(t)[k + 1].opener
  {
    ScanIsLeftmost(t, 0);
    LeftmostOrdered(t, 0, Spans(t));
    forall ms | Leftmost(t, 0, ms) ensures ms == Spans(t) {
      LeftmostUnique(t, 0, ms, Spans(t));
    }
  }

  /**
   * The extracted bodies are the captured groups of those matches, left to
   * right and with duplicates kept: the `k`-th body `b` stands in the text as
   * `[[b]]` at the `k`-th span.
   */
  /** There is one directive per match: none exactly when the pattern matches nowhere. */
  lemma ExtractedCount(t: string)
    ensures |ExtractCommands(Some(t))| == |Spans(t)|
    ensures ExtractCommands(Some(t)) == [] <==> Spans(t) == []
  {
    if t != "" {
      assert ExtractCommands(Some(t)) == Bodies(t, Spans(t));
    }
  }

  lemma ExtractedAtSpans(t: string, k: nat)
    requires k < |Spans(t)|
    ensures |ExtractCommands(Some(t))| == |Spans(t)|
    ensures var sp := Spans(t)[k];
            && ExtractCommands(Some(t))[k] == t[sp.opener + 2..sp.closer]
            && t[sp.opener..sp.closer + 2] == "[[" + ExtractCommands(Some(t))[k] + "]]"
  {
    var ms := Spans(t);
    assert ExtractCommands(Some(t)) == Bodies(t, ms);
    var sp := ms[k];
    var b := Bodies(t, ms)[k];
    SpanIsMatch(t, k);
    assert t[sp.opener..sp.opener + 2] == "[[";
    assert t[sp.closer..sp.closer + 2] == "]]";
    assert t[sp.opener..sp.closer + 2] == t[sp.opener..sp.opener + 2] + b + t[sp.closer..sp.closer + 2];
  }

  /** One extracted body with its span: no closer `]]` and no newline inside it. */
  lemma BodyOfMatch(t: string, i: int, j: int)
    requires MatchAt(t, i, j)
    ensures !Contains(t[i + 2..j], "]]")
    ensures '\n' !in t[i + 2..j]
  {
    var b := t[i + 2..j];
    forall q | 0 <= q <= |b| - 2 ensures !OccursAt(b, "]]", q) {
      assert b[q] == t[i + 2 + q] && b[q + 1] == t[i + 2 + q + 1];
      assert !CloserAt(t, i + 2 + q);
    }
    forall q | 0 <= q < |b| ensures b[q] != '\n' {
      assert b[q] == t[i + 2 + q];
    }
  }

  /**
   * No extracted body contains `]]` (the lazy `.*?` stops at the first one)
   * and none contains a newline (`.` does not match one without DOTALL), so
   * a directive never spans lines.
   */
  lemma ExtractedBodiesAreFlat(text: Option<string>)
    ensures forall b :: b in ExtractCommands(text) ==> !Contains(b, "]]") && '\n' !in b
  {
    if text.Some? && text.value != "" {
      forall b | b in ExtractCommands(text) ensures !Contains(b, "]]") && '\n' !in b {
        var k :| 0 <= k < |ExtractCommands(text)| && ExtractCommands(text)[k] == b;
        BodyFlatAt(text.value, k);
      }
    }
  }

  lemma BodyFlatAt(t: string, k: nat)
    requires t != "" && k < |ExtractCommands(Some(t))|
    ensures !Contains(ExtractCommands(Some(t))[k], "]]") && '\n' !in ExtractCommands(Some(t))[k]
  {
    var ms := Spans(t);
    assert ExtractCommands(Some(t)) == Bodies(t, ms);
    SpanIsMatch(t, k);
    BodyOfMatch(t, ms[k].opener, ms[k].closer);
  }

  lemma SpanIsMatch(t: string, k: nat)
    requires k < |Spans(t)|
    ensures MatchAt(t, Spans(t)[k].opener, Spans(t)[k].closer)
  {
    ScanIsLeftmost(t, 0);
    LeftmostOrdered(t, 0, Spans(t));
  }

  /**
   * An opener whose body runs into a newline `p` before any closer matches
   * nothing: the scan moves on by one character, so the second `[` of the
   * opener may itself start a match.
   */
  lemma BlockedOpenerSkipped(t: string, i: nat, p: nat)
    requires OpenerAt(t, i)
    requires i + 2 <= p < |t| && t[p] == '\n'
    requires forall m :: i + 2 <= m < p ==> !CloserAt(t, m)
    ensures !Opens(t, i)
    ensures Scan(t, i) == Scan(t, i + 1)
  {
    forall j ensures !MatchAt(t, i, j) {
      if j > p {
        assert i + 2 <= p < j && t[p] == '\n';
      }
    }
    FindCloserMeansMatch(t, i);
  }

  // ---------------------------------------------------------------------------
  // format_command_output

  /** What `format_command_output` is given: a result dictionary or any other value (as its `str`). */
  datatype Shown = DictOutput(record: ExecResult) | TextOutput(text: string)

  function OutputHeader(cmd: string): string {
    "Command: [[" + cmd + "]]\nOutput:\n```\n"
  }

  const OutputFooter := "```\n\n"

  /** The message line, present when the message is non-empty. */
  function MessageSection(r: ExecResult): (s: string)
    ensures s == "" <==> r.message == ""
    ensures s != "" ==> s == r.message + "\n"
  {
    if r.message != "" then r.message + "\n" else ""
  }

  function StdoutSection(r: ExecResult): (s: string)
    ensures s == "" <==> r.stdout == ""
    ensures s != "" ==> s == "STDOUT:\n" + r.stdout + "\n"
  {
    if r.stdout != "" then "STDOUT:\n" + r.stdout + "\n" else ""
  }

  function StderrSection(r: ExecResult): (s: string)
    ensures s == "" <==> r.stderr == ""
    ensures s != "" ==> s == "STDERR:\n" + r.stderr + "\n"
  {
    if r.stderr != "" then "STDERR:\n" + r.stderr + "\n" else ""
  }

  /** The exit-code line, present whenever there is an exit code, 0 included. */
  function ExitSection(r: ExecResult): (s: string)
    ensures s == "" <==> r.returncode.None?
    ensures r.returncode.Some? ==> s == "Exit code: " + IntToString(r.returncode.value) + "\n"
  {
    if r.returncode.Some? then "Exit code: " + IntToString(r.returncode.value) + "\n" else ""
  }

  /** `format_command_output(cmd, output)`: a fenced block headed by the directive. */
  function FormatCommandOutput(cmd: string, output: Shown): (r: string)
    ensures StartsWith(r, OutputHeader(cmd)) && EndsWith(r, OutputFooter)
    ensures output.TextOutput? ==> r == OutputHeader(cmd) + output.text + "\n" + OutputFooter
    ensures output.DictOutput? ==>
              r == OutputHeader(cmd) + MessageSection(output.record) + StdoutSection(output.record)
                   + StderrSection(output.record) + ExitSection(output.record) + OutputFooter
  {
    var result := OutputHeader(cmd);
    var result :=
      match output
      case DictOutput(rec) => result + MessageSection(rec) + StdoutSection(rec) + StderrSection(rec) + ExitSection(rec)
      case TextOutput(s) => result + s + "\n";
    result + OutputFooter
  }

  /** An exit code of 0 is printed: the test is `is not None`, not truthiness. */
  lemma FormatShowsExitCodeZero(cmd: string, rec: ExecResult)
    requires rec.returncode == Some(0)
    ensures EndsWith(FormatCommandOutput(cmd, DictOutput(rec)), "Exit code: 0\n" + OutputFooter)
  {
    var r := FormatCommandOutput(cmd, DictOutput(rec));
    assert IntToString(0) == "0";
    var prefix := OutputHeader(cmd) + MessageSection(rec) + StdoutSection(rec) + StderrSection(rec);
    assert r == prefix + ("Exit code: 0\n" + OutputFooter);
  }

  /** A record with nothing in it renders as an empty fenced block. */
  lemma FormatBlankRecord(cmd: string)
    ensures FormatCommandOutput(cmd, DictOutput(Blank)) == OutputHeader(cmd) + OutputFooter
  {
  }
}
