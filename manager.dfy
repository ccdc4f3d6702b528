/**
 * The execute, report and review rounds of `command_manager.py`.
 *
 * A round runs a batch of directives one after the other, collects their
 * results in a dictionary keyed by the directive text, writes the report
 * file, and sends it to the bot: as an attachment, or, when that raises, as
 * a review message, the report cut into 1500-character parts, and a closing
 * question. The directives in the bot's last reply start the next round,
 * up to the depth bound.
 */
module CommandManager {
  import opened Wrappers
  import opened Text
  import opened CommandResult
  import opened Chat
  import Utils
  import CommandExecutor

  // ---------------------------------------------------------------------------
  // The dictionary `command_outputs`

  /** What the dictionary holds for a directive: the handler's record, or an error string. */
  datatype Stored = Record(result: ExecResult) | Message(text: string)

  /** A Python dictionary as its items in insertion order. */
  type Entries = seq<(string, Stored)>

  function Keys(es: Entries): (ks: seq<string>)
    ensures |ks| == |es| && forall k :: 0 <= k < |es| ==> ks[k] == es[k].0
  {
    seq(|es|, k requires 0 <= k < |es| => es[k].0)
  }

  /** `d.get(key)` */
  function Lookup(es: Entries, key: string): (r: Option<Stored>)
    ensures r.None? <==> key !in Keys(es)
  {
    if es == [] then None
    else if es[0].0 == key then Some(es[0].1)
    else
      assert Keys(es) == [es[0].0] + Keys(es[1..]);
      Lookup(es[1..], key)
  }

  /** `d[key] = value` */
  function Put(es: Entries, key: string, value: Stored): (r: Entries)
    ensures |es| <= |r| <= |es| + 1
  {
    if es == [] then [(key, value)]
    else if es[0].0 == key then [(key, value)] + es[1..]
    else [es[0]] + Put(es[1..], key, value)
  }

  /**
   * An existing key keeps its position and gets the new value; a new key is
   * appended at the end; no other key's value changes.
   */
  lemma PutSemantics(es: Entries, key: string, value: Stored)
    ensures key in Keys(es) ==> Keys(Put(es, key, value)) == Keys(es)
    ensures key !in Keys(es) ==> Put(es, key, value) == es + [(key, value)]
    ensures Lookup(Put(es, key, value), key) == Some(value)
    ensures forall other :: other != key ==> Lookup(Put(es, key, value), other) == Lookup(es, other)
  {
    if key in Keys(es) {
      PutKeepsKeys(es, key, value);
    } else {
      PutAppendsNew(es, key, value);
    }
    PutLookup(es, key, value);
  }

  lemma KeysCons(es: Entries)
    requires es != []
    ensures Keys(es) == [es[0].0] + Keys(es[1..])
  {
  }

  lemma KeysSnoc(es: Entries, e: (string, Stored))
    ensures Keys(es + [e]) == Keys(es) + [e.0]
  {
  }

  lemma {:induction false} PutKeepsKeys(es: Entries, key: string, value: Stored)
    requires key in Keys(es)
    ensures Keys(Put(es, key, value)) == Keys(es)
  {
    KeysCons(es);
    var r := Put(es, key, value);
    KeysCons(r);
    if es[0].0 != key {
      PutKeepsKeys(es[1..], key, value);
      assert r[1..] == Put(es[1..], key, value);
    } else {
      assert r[1..] == es[1..];
    }
  }

  lemma {:induction false} PutAppendsNew(es: Entries, key: string, value: Stored)
    requires key !in Keys(es)
    ensures Put(es, key, value) == es + [(key, value)]
  {
    if es != [] {
      KeysCons(es);
      assert es[0].0 != key;
      PutAppendsNew(es[1..], key, value);
      assert Put(es, key, value) == [es[0]] + (es[1..] + [(key, value)]);
      assert [es[0]] + (es[1..] + [(key, value)]) == es + [(key, value)];
    }
  }

  lemma {:induction false} PutLookup(es: Entries, key: string, value: Stored)
    ensures Lookup(Put(es, key, value), key) == Some(value)
    ensures forall other :: other != key ==> Lookup(Put(es, key, value), other) == Lookup(es, other)
  {
    var r := Put(es, key, value);
    if es == [] {
      assert r[1..] == [];
    } else if es[0].0 == key {
      assert r[1..] == es[1..];
    } else {
      PutLookup(es[1..], key, value);
      assert r[1..] == Put(es[1..], key, value);
    }
  }

  /** Storing twice under one key is storing the second value. */
  lemma {:induction false} PutTwice(es: Entries, key: string, first: Stored, second: Stored)
    ensures Put(Put(es, key, first), key, second) == Put(es, key, second)
  {
    if es != [] && es[0].0 != key {
      PutTwice(es[1..], key, first, second);
    }
  }

  /** The dictionary left by storing `values[k]` under `cmds[k]` for each `k` in turn. */
  function BatchEntries(cmds: seq<string>, values: seq<Stored>): (r: Entries)
    requires |values| == |cmds|
    ensures |r| <= |cmds|
  {
    if cmds == [] then []
    else Put(BatchEntries(cmds[..|cmds| - 1], values[..|cmds| - 1]), cmds[|cmds| - 1], values[|cmds| - 1])
  }

  /** The dictionary after one more directive of the batch. */
  lemma BatchEntriesStep(cmds: seq<string>, values: seq<Stored>, k: nat)
    requires |values| == |cmds| && k < |cmds|
    ensures BatchEntries(cmds[..k + 1], values[..k + 1]) == Put(BatchEntries(cmds[..k], values[..k]), cmds[k], values[k])
    ensures cmds[..k + 1] == cmds[..k] + [cmds[k]]
  {
    assert cmds[..k + 1][..k] == cmds[..k] && values[..k + 1][..k] == values[..k];
  }

  /** The distinct elements of a sequence in the order of their first occurrence. */
  function Dedup(s: seq<string>): seq<string> {
    if s == [] then []
    else
      var d := Dedup(s[..|s| - 1]);
      if s[|s| - 1] in d then d else d + [s[|s| - 1]]
  }

  predicate Distinct(s: seq<string>) {
    forall i, j :: 0 <= i < j < |s| ==> s[i] != s[j]
  }

  /** The value stored with the last occurrence of `key`, if it occurs. */
  function LastValue(cmds: seq<string>, values: seq<Stored>, key: string): Option<Stored>
    requires |values| == |cmds|
  {
    if cmds == [] then None
    else if cmds[|cmds| - 1] == key then Some(values[|cmds| - 1])
    else LastValue(cmds[..|cmds| - 1], values[..|cmds| - 1], key)
  }

  /**
   * The dictionary of a batch has one entry per distinct directive, at the
   * position of its first occurrence, holding the value of its last
   * occurrence: repeated directives collapse into one report entry.
   */
  lemma {:induction false} BatchEntriesCollapse(cmds: seq<string>, values: seq<Stored>)
    requires |values| == |cmds|
    ensures Keys(BatchEntries(cmds, values)) == Dedup(cmds)
    ensures Distinct(Dedup(cmds))
    ensures forall x :: x in Dedup(cmds) <==> x in cmds
    ensures forall key :: Lookup(BatchEntries(cmds, values), key) == LastValue(cmds, values, key)
  {
    DedupFacts(cmds);
    BatchKeys(cmds, values);
    BatchLookup(cmds, values);
  }

  lemma {:induction false} DedupFacts(s: seq<string>)
    ensures Distinct(Dedup(s))
    ensures forall x :: x in Dedup(s) <==> x in s
    decreases |s|
  {
    if s != [] {
      var init := s[..|s| - 1];
      DedupFacts(init);
      assert s == init + [s[|s| - 1]];
      forall x ensures x in Dedup(s) <==> x in s {
        assert x in s <==> x in init || x == s[|s| - 1];
      }
    }
  }

  lemma {:induction false} BatchKeys(cmds: seq<string>, values: seq<Stored>)
    requires |values| == |cmds|
    ensures Keys(BatchEntries(cmds, values)) == Dedup(cmds)
    decreases |cmds|
  {
    if cmds != [] {
      var n := |cmds| - 1;
      BatchKeys(cmds[..n], values[..n]);
      var prev := BatchEntries(cmds[..n], values[..n]);
      if cmds[n] in Keys(prev) {
        PutKeepsKeys(prev, cmds[n], values[n]);
      } else {
        PutAppendsNew(prev, cmds[n], values[n]);
        KeysSnoc(prev, (cmds[n], values[n]));
      }
    }
  }

  lemma {:induction false} BatchLookup(cmds: seq<string>, values: seq<Stored>)
    requires |values| == |cmds|
    ensures forall key :: Lookup(BatchEntries(cmds, values), key) == LastValue(cmds, values, key)
    decreases |cmds|
  {
    if cmds != [] {
      var n := |cmds| - 1;
      BatchLookup(cmds[..n], values[..n]);
      PutLookup(BatchEntries(cmds[..n], values[..n]), cmds[n], values[n]);
    }
  }

  // ---------------------------------------------------------------------------
  // Report text and file names

  /** A run of `n` copies of `c`. */
  function Repeat(c: char, n: nat): (r: string)
    ensures |r| == n && forall k :: 0 <= k < n ==> r[k] == c
  {
    seq(n, k requires 0 <= k < n => c)
  }

  /** `"-" * 50` */
  const Rule := Repeat('-', 50)

  /** Which round a report belongs to: the top-level round, or the follow-up round at a recursion depth. */
  datatype Level = TopLevel | FollowUp(depth: nat)

  const TopFile := "command_outputs.txt"
  const FollowUpFilePrefix := "followup_outputs_"
  const TextSuffix := ".txt"
  const TopHeader := "Command Execution Results:\n\n"
  const FollowUpHeader := "Follow-up Command Results (Level "
  const HeaderTail := "):\n\n"
  const CommandLabel := "Command: "
  const OutputLabel := "Output:\n"

  /** The report's file name inside the output directory. */
  function FileName(level: Level): (name: string)
    ensures |name| > |TextSuffix| && name[|name| - |TextSuffix|..] == TextSuffix
  {
    match level
    case TopLevel => TopFile
    case FollowUp(d) => FollowUpFilePrefix + NatToString(d) + TextSuffix
  }

  /** Every round of a chain writes its own file: different levels have different file names. */
  lemma FileNamesDistinct(a: Level, b: Level)
    ensures FileName(a) == FileName(b) <==> a == b
  {
    if a.FollowUp? && b.FollowUp? && FileName(a) == FileName(b) {
      var p := FollowUpFilePrefix;
      assert FileName(a)[|p|..|FileName(a)| - 4] == NatToString(a.depth);
      assert FileName(b)[|p|..|FileName(b)| - 4] == NatToString(b.depth);
      NatToStringInjective(a.depth, b.depth);
    }
  }

  function Header(level: Level): string {
    match level
    case TopLevel => TopHeader
    case FollowUp(d) => FollowUpHeader + NatToString(d + 1) + HeaderTail
  }

  /** The report shows an error string as it is and a record as `str(record)`, which `render` stands for. */
  function Shown(value: Stored, render: ExecResult -> string): string {
    match value
    case Record(r) => render(r)
    case Message(t) => t
  }

  /** One entry of the report: the directive, its output, and a rule of 50 dashes. */
  function EntryText(cmd: string, shown: string): string {
    CommandLabel + cmd + "\n" + OutputLabel + shown + "\n" + Rule + "\n\n"
  }

  /** The texts `f` gives for the entries, concatenated in dictionary order. */
  function JoinMap(es: Entries, f: ((string, Stored)) -> string): string
    decreases |es|
  {
    if es == [] then "" else JoinMap(es[..|es| - 1], f) + f(es[|es| - 1])
  }

  /** The text of an entry as the report shows it. */
  function EntryOf(render: ExecResult -> string): ((string, Stored)) -> string {
    (e: (string, Stored)) => EntryText(e.0, Shown(e.1, render))
  }

  /** The entries of the report, in dictionary order. */
  function EntriesText(es: Entries, render: ExecResult -> string): string {
    JoinMap(es, EntryOf(render))
  }

  /** The report file's contents. */
  function ReportText(level: Level, es: Entries, render: ExecResult -> string): (r: string)
    ensures Header(level) <= r
  {
    Header(level) + EntriesText(es, render)
  }

  lemma {:induction false} JoinMapAppend(a: Entries, b: Entries, f: ((string, Stored)) -> string)
    ensures JoinMap(a + b, f) == JoinMap(a, f) + JoinMap(b, f)
    decreases |b|
  {
    if b == [] {
      assert a + b == a;
    } else {
      var n := |b| - 1;
      assert (a + b)[..|a + b| - 1] == a + b[..n];
      assert (a + b)[|a + b| - 1] == b[n];
      JoinMapAppend(a, b[..n], f);
    }
  }

  /** Appending one entry appends its text. */
  lemma JoinMapSnoc(a: Entries, e: (string, Stored), f: ((string, Stored)) -> string)
    ensures JoinMap(a + [e], f) == JoinMap(a, f) + f(e)
  {
    assert (a + [e])[..|a|] == a;
  }

  /** The text for the first `k + 1` entries extends the text for the first `k`. */
  lemma JoinPrefixStep(head: string, es: Entries, k: nat, f: ((string, Stored)) -> string)
    requires k < |es|
    ensures head + JoinMap(es[..k], f) + f(es[k]) == head + JoinMap(es[..k + 1], f)
  {
    assert es[..k + 1] == es[..k] + [es[k]];
    JoinMapSnoc(es[..k], es[k], f);
  }

  /** Entry `k`'s text stands between the texts of the entries before and after it. */
  lemma JoinMapSplit(es: Entries, k: nat, f: ((string, Stored)) -> string)
    requires k < |es|
    ensures JoinMap(es, f) == JoinMap(es[..k], f) + f(es[k]) + JoinMap(es[k + 1..], f)
  {
    SplitAround(es, k);
    JoinMapAppend(es[..k + 1], es[k + 1..], f);
    JoinMapSnoc(es[..k], es[k], f);
  }

  /**
   * The report starts with the round's header and holds, for every entry,
   * the block "Command: c\nOutput:\n…" with its rule, in dictionary order.
   */
  lemma ReportShowsEveryEntry(level: Level, es: Entries, render: ExecResult -> string)
    ensures StartsWith(ReportText(level, es, render), Header(level))
    ensures forall k :: 0 <= k < |es| ==>
              Contains(ReportText(level, es, render), EntryText(es[k].0, Shown(es[k].1, render)))
  {
    assert ReportText(level, es, render)[..|Header(level)|] == Header(level);
    forall k | 0 <= k < |es| ensures Contains(ReportText(level, es, render), EntryText(es[k].0, Shown(es[k].1, render))) {
      EntryInReport(level, es, render, k);
    }
  }

  lemma EntryInReport(level: Level, es: Entries, render: ExecResult -> string, k: nat)
    requires k < |es|
    ensures Contains(ReportText(level, es, render), EntryText(es[k].0, Shown(es[k].1, render)))
  {
    EntryInJoin(Header(level), es, k, EntryOf(render));
  }

  /** Whatever stands before the joined texts, each entry's text occurs in the result. */
  lemma EntryInJoin(head: string, es: Entries, k: nat, f: ((string, Stored)) -> string)
    requires k < |es|
    ensures Contains(head + JoinMap(es, f), f(es[k]))
  {
    JoinMapSplit(es, k, f);
    ContainsEnd(JoinMap(es[..k], f), f(es[k]));
    ContainsWiden(head, JoinMap(es[..k], f) + f(es[k]), JoinMap(es[k + 1..], f), f(es[k]));
  }

  lemma ContainsEnd(a: string, e: string)
    ensures Contains(a + e, e)
  {
    assert (a + e)[|a|..|a| + |e|] == e;
    assert OccursAt(a + e, e, |a|);
  }

  /** Text around a string that contains `e` still contains it. */
  lemma ContainsWiden(head: string, s: string, tail: string, e: string)
    requires Contains(s, e)
    ensures Contains(head + (s + tail), e)
  {
    var i :| 0 <= i <= |s| - |e| && OccursAt(s, e, i);
    var w := head + (s + tail);
    assert w[|head| + i..|head| + i + |e|] == s[i..i + |e|];
    assert OccursAt(w, e, |head| + i);
  }

  // ---------------------------------------------------------------------------
  // Messages

  const TopAttach := "I've executed the commands. Here are the results:"
  const TopReview := "I've executed the commands. Let me show you the results:"
  const FollowUpIntro := "I've executed the follow-up commands (level "
  const AttachTail := "). Here are the results:"
  const ReviewTail := "). Let me show you the results:"

  function AttachMessage(level: Level): string {
    match level
    case TopLevel => TopAttach
    case FollowUp(d) => FollowUpIntro + NatToString(d + 1) + AttachTail
  }

  function ReviewMessage(level: Level): string {
    match level
    case TopLevel => TopReview
    case FollowUp(d) => FollowUpIntro + NatToString(d + 1) + ReviewTail
  }

  const FinalPrompt := "That's all the output. What do you think?"

  /** The report sent as an attachment; `send_message` uses the chat code by default. */
  function AttachRequest(level: Level): Request {
    Request(AttachMessage(level), true, [FileName(level)])
  }

  function ReviewRequest(level: Level): Request {
    Request(ReviewMessage(level), true, [])
  }

  function FinalRequest(): Request {
    Request(FinalPrompt, true, [])
  }

  // ---------------------------------------------------------------------------
  // Chunking

  const ChunkSize: nat := 1500

  /** `len(range(0, n, 1500))` */
  function ChunkCount(n: nat): nat {
    (n + ChunkSize - 1) / ChunkSize
  }

  function Min(a: int, b: int): int {
    if a <= b then a else b
  }

  /** `s[i:i+1500]` for `i = 1500 * k` */
  function ChunkAt(s: string, k: nat): (c: string)
    requires k < ChunkCount(|s|)
    ensures 0 < |c| <= ChunkSize
  {
    s[k * ChunkSize..Min(k * ChunkSize + ChunkSize, |s|)]
  }

  const PartIntro := "Command output (part "
  const PartOpen := "):\n\n```\n"
  const PartClose := "\n```"

  /** The message for part `k + 1`. */
  function ChunkMessage(s: string, k: nat): string
    requires k < ChunkCount(|s|)
  {
    PartIntro + NatToString(k + 1) + PartOpen + ChunkAt(s, k) + PartClose
  }

  function ChunkRequests(s: string): (rs: seq<Request>)
    ensures |rs| == ChunkCount(|s|)
  {
    seq(ChunkCount(|s|), k requires 0 <= k < ChunkCount(|s|) => Request(ChunkMessage(s, k), true, []))
  }

  /** The first `k` parts, joined. */
  function JoinChunks(s: string, k: nat): string
    requires k <= ChunkCount(|s|)
  {
    if k == 0 then "" else JoinChunks(s, k - 1) + ChunkAt(s, k - 1)
  }

  lemma {:induction false} JoinChunksPrefix(s: string, k: nat)
    requires k <= ChunkCount(|s|)
    ensures JoinChunks(s, k) == s[..Min(k * ChunkSize, |s|)]
  {
    if k > 0 {
      JoinChunksPrefix(s, k - 1);
      assert (k - 1) * ChunkSize < |s|;
      assert s[..Min(k * ChunkSize, |s|)] == s[..(k - 1) * ChunkSize] + ChunkAt(s, k - 1);
    }
  }

  /**
   * The parts cover the report exactly: there are ceil(len/1500) of them,
   * each of 1 to 1500 characters, and joined in order they give the report
   * back.
   */
  lemma ChunksReassemble(s: string)
    ensures |s| <= ChunkCount(|s|) * ChunkSize < |s| + ChunkSize
    ensures JoinChunks(s, ChunkCount(|s|)) == s
    ensures forall k :: 0 <= k < ChunkCount(|s|) ==> 0 < |ChunkAt(s, k)| <= ChunkSize
  {
    JoinChunksPrefix(s, ChunkCount(|s|));
  }

  // ---------------------------------------------------------------------------
  // Delivery to the bot, as a function of the service's answers

  /**
   * Sending `reqs` in order until one raises: the index of the first one
   * that raised, or `|reqs|` if none did.
   */
  function FirstFailure(history: seq<Request>, reqs: seq<Request>, respond: Responder, k: nat): (f: nat)
    requires k <= |reqs|
    decreases |reqs| - k
    ensures k <= f <= |reqs|
    ensures f < |reqs| ==> respond(history + reqs[..f], reqs[f]).Failure?
    ensures forall j :: k <= j < f ==> respond(history + reqs[..j], reqs[j]).Reply?
  {
    if k == |reqs| then k
    else if respond(history + reqs[..k], reqs[k]).Failure? then k
    else FirstFailure(history, reqs, respond, k + 1)
  }

  /** The history after sending `reqs` until one raises, and whether all of them got a reply. */
  function SendAll(history: seq<Request>, reqs: seq<Request>, respond: Responder): (seq<Request>, bool) {
    var f := FirstFailure(history, reqs, respond, 0);
    if f == |reqs| then (history + reqs, true) else (history + reqs[..f + 1], false)
  }

  /**
   * The requests a round sends after writing `report`, and the reply left
   * in `response` (`None` when it is never assigned): the attachment send;
   * if it raised, the review send, whose reply is the response so far, then
   * the parts and the closing question, whose reply replaces it.
   */
  function Delivery(history: seq<Request>, level: Level, report: string, respond: Responder): (r: (seq<Request>, Option<string>))
    ensures |history| < |r.0| && r.0[..|history|] == history
  {
    var h1 := history + [AttachRequest(level)];
    match respond(history, AttachRequest(level))
    case Reply(t) => (h1, Some(t))
    case Failure(_) =>
      var h2 := h1 + [ReviewRequest(level)];
      match respond(h1, ReviewRequest(level))
      case Failure(_) => (h2, None)
      case Reply(reviewed) => Fallback(h2, report, reviewed, respond)
  }

  /** After the review message got `reviewed`: the parts, then the closing question if every part got a reply. */
  function Fallback(history: seq<Request>, report: string, reviewed: string, respond: Responder): (r: (seq<Request>, Option<string>))
    ensures |history| <= |r.0| <= |history| + 1 + ChunkCount(|report|) && r.0[..|history|] == history
    ensures r.1.Some?
  {
    var (sent, allSent) := SendAll(history, ChunkRequests(report), respond);
    SendAllExtends(history, ChunkRequests(report), respond);
    if !allSent then (sent, Some(reviewed))
    else
      assert (sent + [FinalRequest()])[..|history|] == sent[..|history|];
      match respond(sent, FinalRequest())
      case Reply(t) => (sent + [FinalRequest()], Some(t))
      case Failure(_) => (sent + [FinalRequest()], Some(reviewed))
  }

  /**
   * `response` stays unassigned exactly when the attachment send and the
   * review send both raised; otherwise it is the reply to the attachment,
   * to the closing question, or to the review message.
   */
  lemma ResponseUnboundIff(history: seq<Request>, level: Level, report: string, respond: Responder)
    ensures Delivery(history, level, report, respond).1.None? <==>
              respond(history, AttachRequest(level)).Failure?
              && respond(history + [AttachRequest(level)], ReviewRequest(level)).Failure?
    ensures respond(history, AttachRequest(level)).Reply? ==>
              Delivery(history, level, report, respond) == (history + [AttachRequest(level)], Some(respond(history, AttachRequest(level)).text))
  {
  }

  /**
   * The requests of a delivery extend the history, start with the
   * attachment, and number at most the two first sends, the parts and the
   * closing question.
   */
  lemma DeliveryRequests(history: seq<Request>, level: Level, report: string, respond: Responder)
    ensures var sent := Delivery(history, level, report, respond).0;
            && |history| < |sent| <= |history| + 3 + ChunkCount(|report|)
            && sent[..|history|] == history
            && sent[|history|] == AttachRequest(level)
  {
    var h1 := history + [AttachRequest(level)];
    var h2 := h1 + [ReviewRequest(level)];
    var sent := Delivery(history, level, report, respond).0;
    match respond(history, AttachRequest(level))
    case Reply(_) =>
    case Failure(_) =>
      match respond(h1, ReviewRequest(level))
      case Failure(_) =>
      case Reply(reviewed) =>
        assert sent == Fallback(h2, report, reviewed, respond).0;
        assert sent[..|h2|] == h2;
        assert sent[|history|] == h2[|history|];
        assert sent[..|history|] == h2[..|history|];
  }

  /** One more send of the loop: a failure ends it with the requests so far, a reply moves the search on. */
  lemma SendAllStep(history: seq<Request>, reqs: seq<Request>, respond: Responder, k: nat)
    requires k < |reqs| && FirstFailure(history, reqs, respond, 0) == FirstFailure(history, reqs, respond, k)
    ensures history + reqs[..k] + [reqs[k]] == history + reqs[..k + 1]
    ensures respond(history + reqs[..k], reqs[k]).Failure? ==>
              SendAll(history, reqs, respond) == (history + reqs[..k + 1], false)
    ensures respond(history + reqs[..k], reqs[k]).Reply? ==>
              FirstFailure(history, reqs, respond, 0) == FirstFailure(history, reqs, respond, k + 1)
  {
    assert reqs[..k + 1] == reqs[..k] + [reqs[k]];
  }

  /** When every part got a reply, the closing question follows them. */
  lemma FallbackAllSent(history: seq<Request>, report: string, reviewed: string, respond: Responder)
    requires SendAll(history, ChunkRequests(report), respond).1
    ensures Fallback(history, report, reviewed, respond).0 == history + ChunkRequests(report) + [FinalRequest()]
  {
    assert SendAll(history, ChunkRequests(report), respond).0 == history + ChunkRequests(report);
  }

  lemma SendAllExtends(history: seq<Request>, reqs: seq<Request>, respond: Responder)
    ensures var sent := SendAll(history, reqs, respond).0;
            |history| <= |sent| <= |history| + |reqs| && sent[..|history|] == history
  {
  }

  /**
   * When the attachment is refused but the review message and every part get
   * a reply, the parts sent after the review message are the report's
   * 1500-character slices numbered 1, 2, … in order, and the closing
   * question comes last.
   */
  lemma FallbackSendsWholeReport(history: seq<Request>, level: Level, report: string, respond: Responder)
    requires respond(history, AttachRequest(level)).Failure?
    requires respond(history + [AttachRequest(level)], ReviewRequest(level)).Reply?
    requires SendAll(history + [AttachRequest(level), ReviewRequest(level)], ChunkRequests(report), respond).1
    ensures Delivery(history, level, report, respond).0 ==
              history + [AttachRequest(level), ReviewRequest(level)] + ChunkRequests(report) + [FinalRequest()]
    ensures forall k :: 0 <= k < |ChunkRequests(report)| ==>
              ChunkRequests(report)[k].message == PartIntro + NatToString(k + 1) + PartOpen + ChunkAt(report, k) + PartClose
    ensures JoinChunks(report, ChunkCount(|report|)) == report
  {
    var h2 := history + [AttachRequest(level)] + [ReviewRequest(level)];
    assert h2 == history + [AttachRequest(level), ReviewRequest(level)];
    var reviewed := respond(history + [AttachRequest(level)], ReviewRequest(level)).text;
    assert Delivery(history, level, report, respond) == Fallback(h2, report, reviewed, respond);
    FallbackAllSent(h2, report, reviewed, respond);
    ChunksReassemble(report);
  }

  // ---------------------------------------------------------------------------
  // The rounds

  /** What a call ends with: normally, or with the `UnboundLocalError` of an unassigned `response`. */
  datatype Finish = Returned | Unbound

  const PreviewErrorLead := "Error executing command: "

  /** The message stored for every top-level directive, once the result preview has raised. */
  function PreviewFailure(previewError: string): Stored {
    Message(PreviewErrorLead + previewError)
  }

  /** One round that ran: its level, its batch, the report it wrote and the reply it ended with. */
  datatype Round = Round(level: Level, commands: seq<string>, report: string, reply: Option<string>)

  /**
   * What the rounds change, as seen from outside: the requests sent to the
   * bot, the number of directives executed, the report files and the
   * directives handed to the dispatcher, in order.
   */
  datatype Effects = Effects(sent: seq<Request>, executed: nat, files: map<string, string>, dispatched: seq<string>)

  /** Each of rounds `rs`, the first run after `at` directives, logs the report `reportOf` gives for it. */
  ghost predicate Reports(rs: seq<Round>, at: nat, reportOf: (Round, nat) -> string)
    decreases |rs|
  {
    rs != [] ==> rs[0].report == reportOf(rs[0], at) && Reports(rs[1..], at + |rs[0].commands|, reportOf)
  }

  lemma ReportsCons(rs: seq<Round>, at: nat, next: nat, reportOf: (Round, nat) -> string)
    requires rs != [] && next == at + |rs[0].commands|
    requires rs[0].report == reportOf(rs[0], at)
    requires Reports(rs[1..], next, reportOf)
    ensures Reports(rs, at, reportOf)
  {
  }

  /**
   * The state of the review loop: the chat connection, the dispatcher, the
   * host (answering as it stands after a given number of executed
   * directives), `str` of a record, the text of the preview's exception, and
   * the report files written so far.
   */
  class ReviewLoop {
    const client: Client
    const executor: CommandExecutor.Executor
    const host: nat -> CommandExecutor.Env
    /** The record the dispatcher gives for a directive run after `n` others, on `host(n)`. */
    const outcome: (string, nat) -> ExecResult
    const render: ExecResult -> string
    const previewError: string
    var executed: nat
    var files: map<string, string>
    ghost var rounds: seq<Round>

    ghost predicate Valid()
      reads this, executor
    {
      && executor.Valid()
      && forall cmd: string, n: nat {:trigger CommandExecutor.Dispatch(cmd, host(n))} ::
           outcome(cmd, n) == CommandExecutor.Dispatch(cmd, host(n)).result
    }

    constructor (client: Client, executor: CommandExecutor.Executor, host: nat -> CommandExecutor.Env,
                 render: ExecResult -> string, previewError: string)
      ensures this.client == client && this.executor == executor && this.host == host
      ensures this.render == render && this.previewError == previewError
      ensures executed == 0 && files == map[] && rounds == []
      ensures forall cmd: string, n: nat :: outcome(cmd, n) == CommandExecutor.Dispatch(cmd, host(n)).result
    {
      this.client := client;
      this.executor := executor;
      this.host := host;
      this.outcome := (cmd: string, n: nat) => CommandExecutor.Dispatch(cmd, host(n)).result;
      this.render := render;
      this.previewError := previewError;
      executed := 0;
      files := map[];
      rounds := [];
    }

    /** The state the rounds act on. */
    ghost function Observed(): Effects
      reads this, client, executor
    {
      Effects(client.sent, executed, files, CommandExecutor.DispatchedCommands(executor.trace))
    }

    /** The report a round for `r`'s batch writes when `at` directives have run before it. */
    ghost function ReportOf(r: Round, at: nat): string {
      ReportText(r.level, BatchEntries(r.commands, StoredValues(r.commands, r.level, at)), render)
    }

    /**
     * The state after round `r` from `e`: its batch executed and handed to
     * the dispatcher, its report written to the level's file and delivered.
     */
    ghost function After(r: Round, e: Effects): Effects {
      Effects(Delivery(e.sent, r.level, r.report, client.respond).0, e.executed + |r.commands|,
              e.files[FileName(r.level) := r.report], e.dispatched + r.commands)
    }

    /**
     * Rounds `rs`, run one after another from `e0` with the reports they
     * logged, end in `e1`, and each logs the reply its delivery got.
     */
    ghost predicate Replays(rs: seq<Round>, e0: Effects, e1: Effects)
      decreases |rs|
    {
      if rs == [] then e1 == e0
      else
        && rs[0].reply == Delivery(e0.sent, rs[0].level, rs[0].report, client.respond).1
        && Replays(rs[1..], After(rs[0], e0), e1)
    }

    /** Rounds `rs` ran from `e0` to `e1`: each wrote the report of its batch and logs the reply it got. */
    ghost predicate Ran(rs: seq<Round>, e0: Effects, e1: Effects) {
      Replays(rs, e0, e1) && Reports(rs, e0.executed, ReportOf)
    }

    /** A logged round followed by a chain run from the state it left. */
    lemma RanCons(rs: seq<Round>, e0: Effects, e1: Effects)
      requires rs != []
      requires rs[0].report == ReportOf(rs[0], e0.executed)
      requires rs[0].reply == Delivery(e0.sent, rs[0].level, rs[0].report, client.respond).1
      requires Ran(rs[1..], After(rs[0], e0), e1)
      ensures Ran(rs, e0, e1)
    {
      ReplaysCons(rs, e0, e1);
      ReportsCons(rs, e0.executed, After(rs[0], e0).executed, ReportOf);
    }

    lemma ReplaysCons(rs: seq<Round>, e0: Effects, e1: Effects)
      requires rs != []
      requires rs[0].reply == Delivery(e0.sent, rs[0].level, rs[0].report, client.respond).1
      requires Replays(rs[1..], After(rs[0], e0), e1)
      ensures Replays(rs, e0, e1)
    {
    }

    /** What the dictionary gets for `cmd` when it is executed after `at` directives have run. */
    function StoredValue(cmd: string, level: Level, at: nat): Stored {
      if level.TopLevel? then PreviewFailure(previewError)
      else Record(outcome(cmd, at))
    }

    /** The values a batch stores, the `k`-th directive being executed when `start + k` directives have run. */
    function StoredValues(cmds: seq<string>, level: Level, start: nat): (vs: seq<Stored>)
      ensures |vs| == |cmds|
    {
      seq(|cmds|, k requires 0 <= k < |cmds| => StoredValue(cmds[k], level, start + k))
    }

    /** `execute_command(cmd)` on the host as it stands after the directives run so far. */
    method Execute(cmd: string) returns (output: ExecResult)
      requires Valid()
      modifies this, executor
      ensures Valid()
      ensures output == outcome(cmd, old(executed))
      ensures executed == old(executed) + 1
      ensures CommandExecutor.DispatchedCommands(executor.trace) == CommandExecutor.DispatchedCommands(old(executor.trace)) + [cmd]
      ensures files == old(files) && rounds == old(rounds)
    {
      var env := host(executed);
      output := executor.ExecuteCommand(cmd, env);
      assert output == outcome(cmd, executed);
      executed := executed + 1;
    }

    /**
     * One pass of the batch loop: the directive is executed and its record
     * stored under its text; at top level the preview of the record then
     * raises and the error string replaces it.
     */
    method ExecuteOne(cmd: string, level: Level, prev: Entries) returns (entries: Entries)
      requires Valid()
      modifies this, executor
      ensures Valid()
      ensures entries == Put(prev, cmd, StoredValue(cmd, level, old(executed)))
      ensures executed == old(executed) + 1
      ensures CommandExecutor.DispatchedCommands(executor.trace) == CommandExecutor.DispatchedCommands(old(executor.trace)) + [cmd]
      ensures files == old(files) && rounds == old(rounds)
    {
      var output := Execute(cmd);
      entries := Put(prev, cmd, Record(output));
      if level.TopLevel? {
        PutTwice(prev, cmd, Record(output), PreviewFailure(previewError));
        entries := Put(entries, cmd, PreviewFailure(previewError));
      }
    }

    /**
     * The batch loop: every directive is executed once, in order, duplicates
     * included, and the dictionary is updated after each.
     */
    method RunBatch(commands: seq<string>, level: Level) returns (entries: Entries)
      requires Valid()
      modifies this, executor
      ensures Valid()
      ensures entries == BatchEntries(commands, StoredValues(commands, level, old(executed)))
      ensures executed == old(executed) + |commands|
      ensures CommandExecutor.DispatchedCommands(executor.trace) == CommandExecutor.DispatchedCommands(old(executor.trace)) + commands
      ensures files == old(files) && rounds == old(rounds)
    {
      ghost var values := StoredValues(commands, level, executed);
      entries := [];
      var k := 0;
      while k < |commands|
        invariant 0 <= k <= |commands|
        invariant Valid()
        invariant executed == old(executed) + k
        invariant entries == BatchEntries(commands[..k], values[..k])
        invariant CommandExecutor.DispatchedCommands(executor.trace) == CommandExecutor.DispatchedCommands(old(executor.trace)) + commands[..k]
        invariant files == old(files) && rounds == old(rounds)
      {
        entries := ExecuteNext(commands, level, k, entries, values, old(executed), CommandExecutor.DispatchedCommands(old(executor.trace)));
        k := k + 1;
      }
      assert commands[..k] == commands && values[..k] == values;
    }

    /** A pass of the batch loop keeps the loop's invariant: the first `k + 1` directives have run. */
    method ExecuteNext(commands: seq<string>, level: Level, k: nat, prev: Entries,
                       ghost values: seq<Stored>, ghost start: nat, ghost done: seq<string>) returns (entries: Entries)
      requires Valid() && k < |commands|
      requires values == StoredValues(commands, level, start) && executed == start + k
      requires prev == BatchEntries(commands[..k], values[..k])
      requires CommandExecutor.DispatchedCommands(executor.trace) == done + commands[..k]
      modifies this, executor
      ensures Valid()
      ensures executed == start + k + 1
      ensures entries == BatchEntries(commands[..k + 1], values[..k + 1])
      ensures CommandExecutor.DispatchedCommands(executor.trace) == done + commands[..k + 1]
      ensures files == old(files) && rounds == old(rounds)
    {
      assert values[k] == StoredValue(commands[k], level, executed);
      entries := ExecuteOne(commands[k], level, prev);
      BatchEntriesStep(commands, values, k);
      SnocSlice(done, commands, k);
    }

    /** Writes the report of a batch to its file. */
    method WriteReport(level: Level, entries: Entries)
      modifies this
      ensures files == old(files)[FileName(level) := ReportText(level, entries, render)]
      ensures executed == old(executed) && rounds == old(rounds)
    {
      var content := Header(level);
      var k := 0;
      while k < |entries|
        invariant 0 <= k <= |entries|
        invariant content == Header(level) + EntriesText(entries[..k], render)
        invariant files == old(files) && executed == old(executed) && rounds == old(rounds)
      {
        var (cmd, output) := entries[k];
        JoinPrefixStep(Header(level), entries, k, EntryOf(render));
        content := content + EntryText(cmd, Shown(output, render));
        k := k + 1;
      }
      assert entries[..k] == entries;
      files := files[FileName(level) := content];
    }

    /** The `range(0, len, 1500)` loop: sends the parts in order and stops at the first that raises. */
    method SendChunks(report: string) returns (allSent: bool)
      modifies client
      ensures (client.sent, allSent) == SendAll(old(client.sent), ChunkRequests(report), client.respond)
    {
      var reqs := ChunkRequests(report);
      ghost var history := client.sent;
      var k := 0;
      while k < |reqs|
        invariant 0 <= k <= |reqs|
        invariant client.sent == history + reqs[..k]
        invariant FirstFailure(history, reqs, client.respond, 0) == FirstFailure(history, reqs, client.respond, k)
      {
        var outcome := client.Send(reqs[k]);
        SendAllStep(history, reqs, client.respond, k);
        if outcome.Failure? {
          return false;
        }
        k := k + 1;
      }
      assert reqs[..k] == reqs;
      return true;
    }

    /** Sends a written report to the bot, falling back to the review message and parts. */
    method Deliver(level: Level, report: string) returns (response: Option<string>)
      modifies client
      ensures (client.sent, response) == Delivery(old(client.sent), level, report, client.respond)
    {
      var attached := client.Send(AttachRequest(level));
      if attached.Reply? {
        return Some(attached.text);
      }
      var reviewed := client.Send(ReviewRequest(level));
      if reviewed.Failure? {
        return None;
      }
      response := Some(reviewed.text);
      var allSent := SendChunks(report);
      if allSent {
        var last := client.Send(FinalRequest());
        if last.Reply? {
          response := Some(last.text);
        }
      }
    }

    /** Execute, write, send: one round, with the reply it leaves in `response`. */
    method RunRound(commands: seq<string>, level: Level) returns (response: Option<string>, ghost round: Round)
      requires Valid()
      modifies this, executor, client
      ensures Valid()
      ensures var report := ReportText(level, BatchEntries(commands, StoredValues(commands, level, old(executed))), render);
              && files == old(files)[FileName(level) := report]
              && round == Round(level, commands, report, response)
              && (client.sent, response) == Delivery(old(client.sent), level, report, client.respond)
      ensures rounds == old(rounds) + [round]
      ensures executed == old(executed) + |commands|
      ensures CommandExecutor.DispatchedCommands(executor.trace) == CommandExecutor.DispatchedCommands(old(executor.trace)) + commands
      ensures Observed() == After(round, old(Observed()))
    {
      var entries := RunBatch(commands, level);
      WriteReport(level, entries);
      var report := files[FileName(level)];
      response := Deliver(level, report);
      round := Round(level, commands, report, response);
      rounds := rounds + [round];
    }

    /**
     * `execute_commands_recursive(commands, depth)`: nothing happens for an
     * empty batch or beyond depth 3; otherwise one round runs at this depth
     * and the directives of its reply, if any, run at the next depth.
     */
    method ExecuteCommandsRecursive(commands: seq<string>, depth: nat) returns (finish: Finish)
      requires Valid()
      modifies this, executor, client
      decreases if depth > 3 then 0 else 4 - depth
      ensures Valid()
      ensures old(rounds) <= rounds
      ensures RecursiveRounds(commands, depth, rounds[|old(rounds)|..])
      ensures rounds == old(rounds) ==> client.sent == old(client.sent) && files == old(files) && executed == old(executed)
      ensures finish.Unbound? <==> EndsUnbound(rounds[|old(rounds)|..])
      ensures Ran(rounds[|old(rounds)|..], old(Observed()), Observed())
    {
      if commands == [] || depth > 3 {
        assert rounds[|old(rounds)|..] == [];
        return Returned;
      }
      ghost var before := rounds;
      ghost var e0 := Observed();
      var response, round := RunRound(commands, FollowUp(depth));
      ghost var mid := rounds;
      var moreCommands := Utils.ExtractCommands(response);
      if response.Some? && moreCommands != [] {
        finish := ExecuteCommandsRecursive(moreCommands, depth + 1);
      } else {
        finish := if response.None? then Unbound else Returned;
      }
      RoundThenRest(before, mid, rounds);
      RanCons(rounds[|before|..], e0, Observed());
    }

    /**
     * `execute_commands_with_review(commands)`: for a non-empty batch, the
     * top-level round and then, when it got a reply, the follow-up chain
     * its directives start at depth 0.
     */
    method ExecuteCommandsWithReview(commands: seq<string>) returns (finish: Finish)
      requires Valid()
      modifies this, executor, client
      ensures Valid()
      ensures old(rounds) <= rounds
      ensures ReviewRounds(commands, rounds[|old(rounds)|..])
      ensures commands == [] ==> client.sent == old(client.sent) && files == old(files) && executed == old(executed)
      ensures finish.Unbound? <==> EndsUnbound(rounds[|old(rounds)|..])
      ensures Ran(rounds[|old(rounds)|..], old(Observed()), Observed())
    {
      if commands == [] {
        assert rounds[|old(rounds)|..] == [];
        return Returned;
      }
      ghost var before := rounds;
      ghost var e0 := Observed();
      var response, round := RunRound(commands, TopLevel);
      ghost var mid := rounds;
      if response.None? {
        finish := Unbound;
      } else {
        var newCommands := Utils.ExtractCommands(response);
        if newCommands != [] {
          finish := ExecuteCommandsRecursive(newCommands, 0);
        } else {
          finish := Returned;
        }
      }
      RoundThenRest(before, mid, rounds);
      RanCons(rounds[|before|..], e0, Observed());
    }
  }

  /** Extending a prefix of `s` by its next element. */
  /** A sequence is its prefix up to `k`, element `k` and the rest. */
  lemma SplitAround<T>(s: seq<T>, k: nat)
    requires k < |s|
    ensures s[..k + 1] == s[..k] + [s[k]]
    ensures s == s[..k + 1] + s[k + 1..]
  {
  }

  lemma SnocSlice<T>(a: seq<T>, s: seq<T>, k: nat)
    requires k < |s|
    ensures a + s[..k] + [s[k]] == a + s[..k + 1]
  {
    assert s[..k + 1] == s[..k] + [s[k]];
  }

  /** The reply of this round ends the chain: it was never assigned or holds no directive. */
  ghost predicate Stops(r: Round) {
    r.reply.None? || Utils.ExtractCommands(r.reply) == []
  }

  /** The last of these rounds left `response` unassigned. */
  ghost predicate EndsUnbound(rs: seq<Round>) {
    rs != [] && rs[|rs| - 1].reply.None?
  }

  /**
   * The rounds `execute_commands_recursive(commands, depth)` runs: none for an
   * empty batch or beyond depth 3; otherwise a follow-up round at this depth
   * for the batch, and, when it got a reply, the rounds the directives of
   * that reply run at the next depth.
   */
  ghost predicate RecursiveRounds(commands: seq<string>, depth: nat, rs: seq<Round>)
    decreases if depth > 3 then 0 else 4 - depth
  {
    if commands == [] || depth > 3 then rs == []
    else
      && rs != [] && rs[0].level == FollowUp(depth) && rs[0].commands == commands
      && (if rs[0].reply.None? then |rs| == 1
          else RecursiveRounds(Utils.ExtractCommands(rs[0].reply), depth + 1, rs[1..]))
  }

  /**
   * The rounds `execute_commands_with_review(commands)` runs: none for an
   * empty batch; otherwise the top-level round for the batch, and, when it got
   * a reply, the rounds the directives of that reply run from depth 0.
   */
  ghost predicate ReviewRounds(commands: seq<string>, rs: seq<Round>) {
    if commands == [] then rs == []
    else
      && rs != [] && rs[0].level == TopLevel && rs[0].commands == commands
      && (if rs[0].reply.None? then |rs| == 1
          else RecursiveRounds(Utils.ExtractCommands(rs[0].reply), 0, rs[1..]))
  }

  /** The rounds after one round are the rest of the chain, and the chain ends unbound when the rest does. */
  lemma RoundThenRest(before: seq<Round>, mid: seq<Round>, final: seq<Round>)
    requires |mid| == |before| + 1 && before <= mid <= final
    ensures final[|before|..][0] == mid[|before|]
    ensures final[|before|..][1..] == final[|mid|..]
    ensures final[|before|..] == [mid[|before|]] + final[|mid|..]
    ensures final != mid ==> (EndsUnbound(final[|before|..]) <==> EndsUnbound(final[|mid|..]))
    ensures final == mid ==> final[|before|..] == [mid[|before|]]
  {
  }

  /**
   * The chain of follow-up rounds from `depth` has at most `4 - depth` rounds,
   * and fewer only when the reply of its last round stops it.
   */
  lemma {:induction false} RecursiveRoundsShape(commands: seq<string>, depth: nat, rs: seq<Round>)
    requires RecursiveRounds(commands, depth, rs)
    decreases if depth > 3 then 0 else 4 - depth
    ensures |rs| <= (if depth > 3 then 0 else 4 - depth)
    ensures rs != [] ==> rs[0].commands == commands
    ensures FollowUpChain(rs, depth)
    ensures rs != [] ==> depth + |rs| == 4 || Stops(rs[|rs| - 1])
  {
    if commands != [] && depth <= 3 {
      var r, rest := rs[0], rs[1..];
      assert rs == [r] + rest;
      if r.reply.Some? {
        RecursiveRoundsShape(Utils.ExtractCommands(r.reply), depth + 1, rest);
        ChainCons(r, rest, depth);
        if rest != [] {
          assert rs[|rs| - 1] == rest[|rest| - 1];
        }
      } else {
        ChainCons(r, rest, depth);
      }
    }
  }

  /**
   * A review runs at most five rounds, the top-level round first and then
   * follow-up rounds from depth 0, each batch the directives of the reply
   * before it; fewer than five only when the reply of the last round stops
   * the chain.
   */
  lemma ReviewRoundsShape(commands: seq<string>, rs: seq<Round>)
    requires ReviewRounds(commands, rs)
    ensures |rs| <= 5
    ensures commands == [] <==> rs == []
    ensures rs != [] ==> rs[0].level == TopLevel && rs[0].commands == commands
    ensures rs != [] && rs[0].reply.Some? ==>
              FollowUpChain(rs[1..], 0)
              && (|rs| > 1 ==> rs[1].commands == Utils.ExtractCommands(rs[0].reply))
    ensures rs != [] ==> |rs| == 5 || Stops(rs[|rs| - 1])
  {
    if commands != [] && rs[0].reply.Some? {
      var rest := rs[1..];
      RecursiveRoundsShape(Utils.ExtractCommands(rs[0].reply), 0, rest);
      if rest != [] {
        assert rs[|rs| - 1] == rest[|rest| - 1];
      }
    }
  }

  lemma ChainCons(r: Round, rest: seq<Round>, depth: nat)
    requires r.level == FollowUp(depth) && r.commands != []
    requires FollowUpChain(rest, depth + 1)
    requires rest != [] ==> r.reply.Some? && rest[0].commands == Utils.ExtractCommands(r.reply)
    ensures FollowUpChain([r] + rest, depth)
  {
    var rs := [r] + rest;
    assert forall i :: 1 <= i < |rs| ==> rs[i] == rest[i - 1];
  }

  /**
   * A chain of follow-up rounds from `depth`: at consecutive depths, none
   * with an empty batch, each batch the directives of the previous reply,
   * and only the last possibly without a reply.
   */
  ghost predicate FollowUpChain(rs: seq<Round>, depth: nat) {
    && (forall i :: 0 <= i < |rs| ==> rs[i].level == FollowUp(depth + i) && rs[i].commands != [])
    && (forall i :: 0 <= i < |rs| - 1 ==> rs[i].reply.Some? && rs[i + 1].commands == Utils.ExtractCommands(rs[i].reply))
  }
}
