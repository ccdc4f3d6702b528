/**
 * The conversation loop of the agent: each line the user types either ends
 * the session (`exit`), re-runs the directives of the latest reply
 * (`execute`) or is sent to the bot, falling back from "with chat code" to
 * "without chat code"; the directives of every reply are run through the
 * review loop of `CommandManager`.
 */
module MainLoop {
  import opened Wrappers
  import opened Text
  import opened Chat
  import Utils
  import CommandManager

  // ---------------------------------------------------------------------------
  // Sending with fallback

  /** The two ways of sending; the loop records them as 1 and 2. */
  datatype Method = WithChatCode | WithoutChatCode

  /** The request one attempt sends: no attachment, the chat code used or not. */
  function AttemptRequest(message: string, m: Method): (req: Request)
    ensures req.message == message && req.attachments == []
    ensures req.useChatCode <==> m == WithChatCode
  {
    Request(message, m == WithChatCode, [])
  }

  /** With no preference both ways are tried, chat code first; a recorded preference is the only way tried. */
  function Permitted(preferred: Option<Method>): (ms: seq<Method>)
    ensures preferred.Some? ==> ms == [preferred.value]
    ensures preferred.None? ==> |ms| == 2 && ms[0] == WithChatCode && ms[1] != ms[0]
  {
    match preferred
    case None => [WithChatCode, WithoutChatCode]
    case Some(m) => [m]
  }

  /**
   * Tries the ways in order, each with the history the earlier attempts left,
   * and keeps the first reply, tagged with the way that produced it; the
   * requests sent and that result.
   */
  function TryInOrder(history: seq<Request>, message: string, methods: seq<Method>, respond: Responder)
    : (r: (seq<Request>, Option<(Method, string)>))
    ensures history <= r.0 && |r.0| <= |history| + |methods|
    ensures r.1.Some? ==> r.1.value.0 in methods
    decreases |methods|
  {
    if methods == [] then (history, None)
    else
      var req := AttemptRequest(message, methods[0]);
      match respond(history, req)
      case Reply(text) => (history + [req], Some((methods[0], text)))
      case Failure(_) => TryInOrder(history + [req], message, methods[1..], respond)
  }

  /**
   * What trying in order does: it sends one request per way, in order, for
   * the same message, each after the last one failed; the result is `None`
   * exactly when every way was tried and the last failed too, and otherwise
   * holds the way of the last request sent and the reply to it.
   */
  lemma {:induction false} TryInOrderSends(history: seq<Request>, message: string, methods: seq<Method>, respond: Responder)
    ensures var r := TryInOrder(history, message, methods, respond);
            var n := |r.0| - |history|;
            && history <= r.0 && n <= |methods|
            && (forall j :: |history| <= j < |r.0| ==> r.0[j] == AttemptRequest(message, methods[j - |history|]))
            && (forall j :: |history| <= j < |r.0| - 1 ==> respond(r.0[..j], r.0[j]).Failure?)
            && (r.1.None? <==> n == |methods| && (n > 0 ==> respond(r.0[..|r.0| - 1], r.0[|r.0| - 1]).Failure?))
            && (r.1.Some? ==> 0 < n && r.1.value.0 == methods[n - 1]
                              && respond(r.0[..|r.0| - 1], r.0[|r.0| - 1]) == Reply(r.1.value.1))
    decreases |methods|
  {
    if methods != [] {
      var req := AttemptRequest(message, methods[0]);
      var h1 := history + [req];
      var r := TryInOrder(history, message, methods, respond);
      var n := |r.0| - |history|;
      if respond(history, req).Failure? {
        TryInOrderSends(h1, message, methods[1..], respond);
        assert r == TryInOrder(h1, message, methods[1..], respond);
        assert r.0[..|history|] == history;
        forall j | |h1| <= j < |r.0|
          ensures r.0[j] == AttemptRequest(message, methods[j - |history|])
        {
          assert r.0[j] == AttemptRequest(message, methods[1..][j - |h1|]);
        }
      } else {
        assert r.0 == h1;
        assert r.0[..|r.0| - 1] == history;
      }
    }
  }

  /** A recorded preference is kept: if an answer comes, it comes by that way, after a single request. */
  lemma PreferenceSticky(history: seq<Request>, message: string, preferred: Option<Method>, respond: Responder)
    requires preferred.Some?
    ensures var r := TryInOrder(history, message, Permitted(preferred), respond);
            && (r.1.Some? ==> r.1.value.0 == preferred.value)
            && r.0 == history + [AttemptRequest(message, preferred.value)]
  {
    TryInOrderSends(history, message, Permitted(preferred), respond);
  }

  /**
   * Without a preference, the chat-code way is tried first and, when it is
   * answered, nothing else is sent; the other way is tried only after it
   * failed, and `None` means both failed.
   */
  lemma ChatCodeFirst(history: seq<Request>, message: string, respond: Responder)
    ensures var first := AttemptRequest(message, WithChatCode);
            var second := AttemptRequest(message, WithoutChatCode);
            var r := TryInOrder(history, message, Permitted(None), respond);
            && (respond(history, first).Reply? ==> r == (history + [first], Some((WithChatCode, respond(history, first).text))))
            && (respond(history, first).Failure? ==> r.0 == history + [first, second])
            && (r.1.Some? && r.1.value.0 == WithoutChatCode ==> respond(history, first).Failure?)
            && (r.1.None? <==> respond(history, first).Failure? && respond(history + [first], second).Failure?)
  {
    var first := AttemptRequest(message, WithChatCode);
    var second := AttemptRequest(message, WithoutChatCode);
    var r := TryInOrder(history, message, Permitted(None), respond);
    TryInOrderSends(history, message, Permitted(None), respond);
    if respond(history, first).Failure? {
      assert r.0[..|history|] == history;
      assert r.0[|history|] == first;
      assert r.0[..|r.0| - 1] == history + [first];
    } else {
      assert r.0 == history + [first];
    }
  }

  /**
   * `send_message_with_fallback`: the chat-code way unless the preference is
   * the other one, then the other way unless the preference is the first;
   * `None` when no attempt was answered.
   */
  method SendMessageWithFallback(client: Client, message: string, preferred: Option<Method>)
    returns (response: Option<(Method, string)>)
    modifies client
    ensures (client.sent, response) == TryInOrder(old(client.sent), message, Permitted(preferred), client.respond)
  {
    assert [WithChatCode, WithoutChatCode][1..] == [WithoutChatCode];
    if preferred == None || preferred == Some(WithChatCode) {
      var outcome := client.Send(AttemptRequest(message, WithChatCode));
      if outcome.Reply? {
        return Some((WithChatCode, outcome.text));
      }
    }
    if preferred == None || preferred == Some(WithoutChatCode) {
      var outcome := client.Send(AttemptRequest(message, WithoutChatCode));
      if outcome.Reply? {
        return Some((WithoutChatCode, outcome.text));
      }
    }
    return None;
  }

  // ---------------------------------------------------------------------------
  // What each line of input asks for

  datatype Input = ExitWord | ExecuteWord | Message(text: string)

  /** The two keyword tests on `user_message.lower()`; anything else is a message to the bot. */
  function ClassifyInput(userMessage: string): (i: Input)
    ensures i == ExitWord <==> SpellsIgnoringCase(userMessage, "exit")
    ensures i == ExecuteWord <==> SpellsIgnoringCase(userMessage, "execute")
    ensures i.Message? ==> i.text == userMessage
  {
    LowerIsKeyword(userMessage, "exit");
    LowerIsKeyword(userMessage, "execute");
    if Lower(userMessage) == "exit" then ExitWord
    else if Lower(userMessage) == "execute" then ExecuteWord
    else Message(userMessage)
  }

  // ---------------------------------------------------------------------------
  // The loop's two variables and how each turn changes them

  /** `successful_method` and `last_commands`. */
  datatype State = State(preferred: Option<Method>, lastCommands: seq<string>)

  const Start := State(None, [])

  /** What one turn did: the ghost record the loop keeps of itself. */
  datatype Step =
    | Exited
    | Reran(commands: seq<string>, review: Option<CommandManager.Finish>)
    | Said(message: string, history: seq<Request>, response: Option<(Method, string)>,
           review: Option<CommandManager.Finish>)

  /** An answered message records its way and its directives; every other turn leaves the state alone. */
  function Next(s: State, step: Step): (r: State)
    ensures r != s ==> step.Said? && step.response.Some?
    ensures s.preferred.Some? ==> r.preferred.Some?
  {
    if step.Said? && step.response.Some? then
      State(Some(step.response.value.0), Utils.ExtractCommands(Some(step.response.value.1)))
    else s
  }

  /** The state after a sequence of turns. */
  function Replay(s: State, steps: seq<Step>): (r: State)
    ensures s.preferred.Some? ==> r.preferred.Some?
    decreases |steps|
  {
    if steps == [] then s else Next(Replay(s, steps[..|steps| - 1]), steps[|steps| - 1])
  }

  /** The most recent answer the bot gave to a message, if any. */
  function LatestReply(steps: seq<Step>): (r: Option<(Method, string)>)
    decreases |steps|
    ensures r.Some? ==> exists k :: 0 <= k < |steps| && steps[k].Said? && steps[k].response == r
  {
    if steps == [] then None
    else if steps[|steps| - 1].Said? && steps[|steps| - 1].response.Some? then steps[|steps| - 1].response
    else LatestReply(steps[..|steps| - 1])
  }

  ghost function ReviewOf(step: Step): Option<CommandManager.Finish> {
    match step
    case Exited => None
    case Reran(_, review) => review
    case Said(_, _, _, review) => review
  }

  /**
   * One turn, as the loop body does it from state `s`: `exit` ends the loop;
   * `execute` re-runs the directives of the latest reply, and reviews only a
   * non-empty list; a message is sent with the recorded preference and, when
   * answered, the directives of the answer are reviewed if there are any.
   */
  ghost predicate StepFits(step: Step, userMessage: string, s: State, respond: Responder) {
    match ClassifyInput(userMessage)
    case ExitWord => step.Exited?
    case ExecuteWord => step.Reran? && step.commands == s.lastCommands && (step.review.Some? <==> s.lastCommands != [])
    case Message(text) =>
      && step.Said? && step.message == text
      && step.response == TryInOrder(step.history, text, Permitted(s.preferred), respond).1
      && (step.review.Some? <==> step.response.Some? && Utils.ExtractCommands(Some(step.response.value.1)) != [])
  }

  /** The loop's variables always hold the way and the directives of the latest answered message. */
  lemma {:induction false} ReplayFollowsLatestReply(steps: seq<Step>)
    ensures Replay(Start, steps) == match LatestReply(steps)
                                    case None => Start
                                    case Some((m, text)) => State(Some(m), Utils.ExtractCommands(Some(text)))
    decreases |steps|
  {
    if steps != [] {
      ReplayFollowsLatestReply(steps[..|steps| - 1]);
    }
  }

  /** `execute` repeats exactly the directives of the latest answered message, or nothing before the first answer. */
  lemma RerunRepeatsLatestReply(steps: seq<Step>, k: nat, userMessage: string, respond: Responder)
    requires k < |steps| && steps[k].Reran?
    requires StepFits(steps[k], userMessage, Replay(Start, steps[..k]), respond)
    ensures LatestReply(steps[..k]).None? ==> steps[k].commands == [] && steps[k].review.None?
    ensures LatestReply(steps[..k]).Some? ==> steps[k].commands == Utils.ExtractCommands(Some(LatestReply(steps[..k]).value.1))
  {
    ReplayFollowsLatestReply(steps[..k]);
  }

  /**
   * Once a way has been answered it is the only way the loop ever uses: the
   * recorded preference never changes afterwards.
   */
  lemma {:induction false} PreferenceNeverChanges(steps: seq<Step>, inputs: seq<string>, respond: Responder, j: nat, i: nat, m: Method)
    requires TurnsFit(steps, inputs, respond)
    requires j <= i <= |steps|
    requires Replay(Start, steps[..j]).preferred == Some(m)
    ensures Replay(Start, steps[..i]).preferred == Some(m)
    decreases i - j
  {
    if j < i {
      var s := Replay(Start, steps[..j]);
      assert steps[..j + 1][..j] == steps[..j];
      assert StepFits(steps[j], inputs[j], s, respond);
      if steps[j].Said? && steps[j].response.Some? {
        PreferenceSticky(steps[j].history, steps[j].message, s.preferred, respond);
      }
      PreferenceNeverChanges(steps, inputs, respond, j + 1, i, m);
    }
  }

  /** The directives a turn hands to the review loop: those re-run, or those of the answer to the message. */
  function Reviewed(step: Step): (cmds: seq<string>)
    ensures step.Exited? ==> cmds == []
    ensures step.Said? && step.response.None? ==> cmds == []
  {
    match step
    case Exited => []
    case Reran(commands, _) => commands
    case Said(_, _, response, _) => if response.Some? then Utils.ExtractCommands(Some(response.value.1)) else []
  }

  /**
   * What a turn taken from state `s` does to the review loop, given the
   * reports its rounds logged: a message is sent with the history as it
   * stood (`e0.sent`), and then the review of the turn's directives runs the
   * rounds `rs`, which take the state from the one the sending left to `e1`;
   * a turn that reviews nothing adds no round and changes nothing else; a
   * review that raised is one whose last round was left without a reply.
   */
  ghost predicate TurnLog(review: CommandManager.ReviewLoop, step: Step, s: State,
                          e0: CommandManager.Effects, rs: seq<CommandManager.Round>, e1: CommandManager.Effects)
  {
    && (step.Said? ==> step.history == e0.sent)
    && var sent := if step.Said? then TryInOrder(e0.sent, step.message, Permitted(s.preferred), review.client.respond).0
                   else e0.sent;
       && CommandManager.ReviewRounds(Reviewed(step), rs)
       && review.Replays(rs, e0.(sent := sent), e1)
       && (ReviewOf(step).Some? ==> (ReviewOf(step).value.Unbound? <==> CommandManager.EndsUnbound(rs)))
  }

  /** What a turn does, with every report its rounds logged the one their batches wrote. */
  ghost predicate TurnEffect(review: CommandManager.ReviewLoop, step: Step, s: State,
                             e0: CommandManager.Effects, rs: seq<CommandManager.Round>, e1: CommandManager.Effects)
  {
    TurnLog(review, step, s, e0, rs, e1) && CommandManager.Reports(rs, e0.executed, review.ReportOf)
  }

  /** Every turn so far followed the rules from the state the turns before it left. */
  ghost predicate TurnsFit(steps: seq<Step>, inputs: seq<string>, respond: Responder) {
    |steps| <= |inputs| && forall k {:trigger StepFits(steps[k], inputs[k], Replay(Start, steps[..k]), respond)} ::
      0 <= k < |steps| ==> StepFits(steps[k], inputs[k], Replay(Start, steps[..k]), respond)
  }

  /** None of these turns ended the loop. */
  ghost predicate KeptGoing(steps: seq<Step>) {
    forall k :: 0 <= k < |steps| ==> !steps[k].Exited? && ReviewOf(steps[k]) != Some(CommandManager.Unbound)
  }

  lemma TurnsFitExtend(steps: seq<Step>, inputs: seq<string>, step: Step, respond: Responder)
    requires TurnsFit(steps, inputs, respond) && |steps| < |inputs|
    requires StepFits(step, inputs[|steps|], Replay(Start, steps), respond)
    ensures TurnsFit(steps + [step], inputs, respond)
  {
    var all := steps + [step];
    forall k | 0 <= k < |all| ensures StepFits(all[k], inputs[k], Replay(Start, all[..k]), respond) {
      if k < |steps| {
        assert all[..k] == steps[..k];
      } else {
        assert all[..k] == steps;
      }
    }
  }

  /** One more turn that fits: the run still fits, replays to the new state and, if that turn did not end the loop, kept going. */
  lemma RunExtend(steps: seq<Step>, inputs: seq<string>, step: Step, respond: Responder, s: State)
    requires TurnsFit(steps, inputs, respond) && |steps| < |inputs| && KeptGoing(steps)
    requires s == Replay(Start, steps) && StepFits(step, inputs[|steps|], s, respond)
    ensures TurnsFit(steps + [step], inputs, respond)
    ensures Replay(Start, steps + [step]) == Next(s, step)
    ensures (steps + [step])[..|steps|] == steps
    ensures !step.Exited? && ReviewOf(step) != Some(CommandManager.Unbound) ==> KeptGoing(steps + [step])
  {
    TurnsFitExtend(steps, inputs, step, respond);
    ReplaySnoc(steps, step);
    KeptGoingSnoc(steps, step);
  }

  lemma ReplaySnoc(steps: seq<Step>, step: Step)
    ensures (steps + [step])[..|steps|] == steps
    ensures Replay(Start, steps + [step]) == Next(Replay(Start, steps), step)
  {
    assert (steps + [step])[..|steps|] == steps;
  }

  lemma KeptGoingSnoc(steps: seq<Step>, step: Step)
    requires KeptGoing(steps)
    ensures !step.Exited? && ReviewOf(step) != Some(CommandManager.Unbound) ==> KeptGoing(steps + [step])
  {
    if !step.Exited? && ReviewOf(step) != Some(CommandManager.Unbound) {
      forall k | 0 <= k < |steps| + 1 ensures !(steps + [step])[k].Exited? && ReviewOf((steps + [step])[k]) != Some(CommandManager.Unbound) {
        if k < |steps| {
          assert (steps + [step])[k] == steps[k];
        }
      }
    }
  }

  /** The rounds of several turns, in order. */
  ghost function Flatten(batches: seq<seq<CommandManager.Round>>): seq<CommandManager.Round>
    decreases |batches|
  {
    if batches == [] then [] else Flatten(batches[..|batches| - 1]) + batches[|batches| - 1]
  }

  /**
   * A session of turns: turn `k` took the review loop from `marks[k]` to
   * `marks[k + 1]`, running the rounds `batches[k]`, from the state the
   * turns before it left.
   */
  ghost predicate Session(review: CommandManager.ReviewLoop, steps: seq<Step>,
                          marks: seq<CommandManager.Effects>, batches: seq<seq<CommandManager.Round>>)
    decreases |steps|, 1
  {
    && |marks| == |steps| + 1 && |batches| == |steps|
    && (steps != [] ==> LastTurn(review, steps, marks, batches))
  }

  /** The turns before the last one make a session, and the last one started where they ended. */
  ghost predicate LastTurn(review: CommandManager.ReviewLoop, steps: seq<Step>,
                           marks: seq<CommandManager.Effects>, batches: seq<seq<CommandManager.Round>>)
    requires |marks| == |steps| + 1 && |batches| == |steps| && steps != []
    decreases |steps|, 0
  {
    var n := |steps| - 1;
    && Session(review, steps[..n], marks[..n + 1], batches[..n])
    && TurnLog(review, steps[n], Replay(Start, steps[..n]), marks[n], batches[n], marks[n + 1])
  }

  /** One more turn with its effect extends the session. */
  lemma SessionExtend(review: CommandManager.ReviewLoop, steps: seq<Step>, marks: seq<CommandManager.Effects>,
                      batches: seq<seq<CommandManager.Round>>, step: Step, rs: seq<CommandManager.Round>, e1: CommandManager.Effects)
    requires Session(review, steps, marks, batches)
    requires TurnLog(review, step, Replay(Start, steps), marks[|steps|], rs, e1)
    ensures Session(review, steps + [step], marks + [e1], batches + [rs])
  {
    var n := |steps|;
    var all, ms, bs := steps + [step], marks + [e1], batches + [rs];
    assert all[..n] == steps && ms[..n + 1] == marks && bs[..n] == batches;
    assert all[n] == step && ms[n] == marks[n] && ms[n + 1] == e1 && bs[n] == rs;
    assert LastTurn(review, all, ms, bs);
  }

  /** Every turn of a session had its effect, each starting where the one before it ended. */
  lemma {:induction false} SessionTurn(review: CommandManager.ReviewLoop, steps: seq<Step>, marks: seq<CommandManager.Effects>,
                                       batches: seq<seq<CommandManager.Round>>, k: nat)
    requires Session(review, steps, marks, batches) && k < |steps|
    ensures TurnLog(review, steps[k], Replay(Start, steps[..k]), marks[k], batches[k], marks[k + 1])
    decreases |steps|
  {
    var n := |steps| - 1;
    assert LastTurn(review, steps, marks, batches);
    if k < n {
      SessionTurn(review, steps[..n], marks[..n + 1], batches[..n], k);
      assert steps[..n][..k] == steps[..k];
    }
  }

  /** The rounds logged before the turns, then those of each turn, then those of one more. */
  lemma FlattenSnoc(prefix: seq<CommandManager.Round>, batches: seq<seq<CommandManager.Round>>, rs: seq<CommandManager.Round>)
    ensures prefix + Flatten(batches) + rs == prefix + Flatten(batches + [rs])
  {
    assert (batches + [rs])[..|batches|] == batches;
  }

  // ---------------------------------------------------------------------------
  // The loop

  /** How `main` stops: on `exit`, when `input` has nothing left to read, or when a review raises. */
  datatype Ending = ExitRequested | InputExhausted | ReviewCrashed

  /** The body of the loop for one line of input. */
  method TakeTurn(review: CommandManager.ReviewLoop, userMessage: string, s: State)
    returns (next: State, stop: Option<Ending>, ghost step: Step, ghost rs: seq<CommandManager.Round>)
    requires review.Valid()
    modifies review, review.executor, review.client
    ensures review.Valid()
    ensures StepFits(step, userMessage, s, review.client.respond)
    ensures next == Next(s, step)
    ensures stop == Some(ExitRequested) <==> step.Exited?
    ensures stop == Some(ReviewCrashed) <==> ReviewOf(step) == Some(CommandManager.Unbound)
    ensures stop != Some(InputExhausted)
    ensures review.rounds == old(review.rounds) + rs
    ensures TurnEffect(review, step, s, old(review.Observed()), rs, review.Observed())
  {
    ghost var before := review.rounds;
    var input := ClassifyInput(userMessage);
    next := s;
    stop := None;
    rs := [];
    match input {
      case ExitWord =>
        step := Exited;
        stop := Some(ExitRequested);
      case ExecuteWord =>
        var finish := None;
        if s.lastCommands != [] {
          var f := review.ExecuteCommandsWithReview(s.lastCommands);
          rs := review.rounds[|before|..];
          PrefixRest(before, review.rounds);
          finish := Some(f);
          if f == CommandManager.Unbound {
            stop := Some(ReviewCrashed);
          }
        }
        step := Reran(s.lastCommands, finish);
      case Message(text) =>
        ghost var history := review.client.sent;
        var response := SendMessageWithFallback(review.client, text, s.preferred);
        var finish := None;
        if response.Some? {
          var (m, reply) := response.value;
          var commands := Utils.ExtractCommands(Some(reply));
          next := State(Some(m), commands);
          if commands != [] {
            var f := review.ExecuteCommandsWithReview(commands);
            rs := review.rounds[|before|..];
            PrefixRest(before, review.rounds);
            finish := Some(f);
            if f == CommandManager.Unbound {
              stop := Some(ReviewCrashed);
            }
          }
        }
        step := Said(text, history, response, finish);
    }
    assert before + [] == before;
  }

  lemma PrefixRest<T>(a: seq<T>, b: seq<T>)
    requires a <= b
    ensures b == a + b[|a|..]
  {
  }

  /**
   * One pass of the loop body in a session: the turn `TakeTurn` takes,
   * appended to the record of the turns before it.
   */
  method Turn(review: CommandManager.ReviewLoop, inputs: seq<string>, k: nat, s: State,
              ghost steps: seq<Step>, ghost marks: seq<CommandManager.Effects>,
              ghost batches: seq<seq<CommandManager.Round>>, ghost start: seq<CommandManager.Round>)
    returns (next: State, stop: Option<Ending>, ghost steps': seq<Step>,
             ghost marks': seq<CommandManager.Effects>, ghost batches': seq<seq<CommandManager.Round>>)
    requires k == |steps| < |inputs| && review.Valid()
    requires Session(review, steps, marks, batches) && marks[|steps|] == review.Observed()
    requires review.rounds == start + Flatten(batches)
    requires s == Replay(Start, steps) && TurnsFit(steps, inputs, review.client.respond) && KeptGoing(steps)
    modifies review, review.executor, review.client
    ensures review.Valid()
    ensures Session(review, steps', marks', batches')
    ensures |marks'| == |steps'| + 1 && |batches'| == |steps'|
    ensures marks'[0] == marks[0] && marks'[|steps'|] == review.Observed()
    ensures review.rounds == start + Flatten(batches')
    ensures next == Replay(Start, steps') && TurnsFit(steps', inputs, review.client.respond)
    ensures |steps'| == k + 1 && steps'[..k] == steps
    ensures stop.None? ==> KeptGoing(steps')
    ensures stop == Some(ExitRequested) <==> steps'[k].Exited?
    ensures stop == Some(ReviewCrashed) <==> ReviewOf(steps'[k]) == Some(CommandManager.Unbound)
    ensures stop != Some(InputExhausted)
  {
    ghost var step, rs;
    next, stop, step, rs := TakeTurn(review, inputs[k], s);
    RunExtend(steps, inputs, step, review.client.respond, s);
    SessionExtend(review, steps, marks, batches, step, rs, review.Observed());
    FlattenSnoc(start, batches, rs);
    steps', marks', batches' := steps + [step], marks + [review.Observed()], batches + [rs];
  }

  /**
   * `main`'s `while True` over the lines the user types: every turn follows
   * the rules above from the state the earlier turns left, and the loop goes
   * on until `exit`, the end of the input or a review that raised.
   */
  method Converse(review: CommandManager.ReviewLoop, inputs: seq<string>)
    returns (ending: Ending, ghost steps: seq<Step>,
             ghost marks: seq<CommandManager.Effects>, ghost batches: seq<seq<CommandManager.Round>>)
    requires review.Valid()
    modifies review, review.executor, review.client
    ensures review.Valid()
    ensures Session(review, steps, marks, batches)
    ensures |marks| == |steps| + 1 && |batches| == |steps|
    ensures marks[0] == old(review.Observed()) && marks[|steps|] == review.Observed()
    ensures review.rounds == old(review.rounds) + Flatten(batches)
    ensures TurnsFit(steps, inputs, review.client.respond)
    ensures steps == [] || KeptGoing(steps[..|steps| - 1])
    ensures ending == ExitRequested <==> steps != [] && steps[|steps| - 1].Exited?
    ensures ending == ReviewCrashed <==> steps != [] && ReviewOf(steps[|steps| - 1]) == Some(CommandManager.Unbound)
    ensures ending == InputExhausted ==> |steps| == |inputs|
  {
    var s := Start;
    steps := [];
    marks := [review.Observed()];
    batches := [];
    var k := 0;
    while k < |inputs|
      invariant 0 <= k <= |inputs| && |steps| == k
      invariant review.Valid()
      invariant Session(review, steps, marks, batches)
      invariant |marks| == |steps| + 1 && |batches| == |steps|
      invariant marks[0] == old(review.Observed()) && marks[|steps|] == review.Observed()
      invariant review.rounds == old(review.rounds) + Flatten(batches)
      invariant s == Replay(Start, steps)
      invariant TurnsFit(steps, inputs, review.client.respond)
      invariant KeptGoing(steps)
    {
      var next, stop;
      next, stop, steps, marks, batches := Turn(review, inputs, k, s, steps, marks, batches, old(review.rounds));
      if stop.Some? {
        return stop.value, steps, marks, batches;
      }
      s := next;
      k := k + 1;
    }
    return InputExhausted, steps, marks, batches;
  }
}
