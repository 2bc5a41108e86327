/**
 * `AdvancedWebsiteChatbot` (chatbot.py:145-250): routing one question
 * through retrieval and generation, the bounded chat history, the console
 * loop with its quit words, and the start-up sequence that leads to it.
 *
 * Console input is a sequence of lines; running out of lines stands for
 * `input()` raising at end of input. The page fetch is represented by its
 * outcome, the parsed section dictionary or `None`.
 */
module Chat {
  import opened Options
  import opened Text
  import opened Chunking
  import opened Knowledge
  import opened Prompt

  const Apology := "I'm sorry, I couldn't find any relevant information on the website to answer your question."

  /** The history length above which the oldest turn is dropped. */
  const HistoryLimit := 5

  /** What one chat turn depends on besides the history: the knowledge base,
      the model name, the similarity of a query to each embedding row, and
      the completion API. */
  datatype Bot = Bot(kb: KnowledgeBase, model: string, sim: (string, nat) -> real,
                     complete: Request -> Option<string>)

  /** `answer_question_with_rag`: the API is called exactly when retrieval
      is possible; otherwise the answer is the fixed apology. */
  function Answer(bot: Bot, query: string, history: seq<Turn>): (r: Reply)
    ensures r.request.None? <==> !Searchable(bot.kb)
    ensures !Searchable(bot.kb) ==> r.text == Apology
    ensures Searchable(bot.kb) ==>
      r == Generate(bot.model, query, Retrieve(bot.kb, query, RetrievalDepth, bot.sim), history, bot.complete)
  {
    var chunks := Retrieve(bot.kb, query, RetrievalDepth, bot.sim);
    RetrieveAtDepth(bot.kb, query, bot.sim);
    if chunks == [] then Reply(Apology, None)
    else Generate(bot.model, query, chunks, history, bot.complete)
  }

  /** A failing completion call is answered with the fallback text, and the
      failure goes no further. */
  lemma {:induction false} AnswerFallback(bot: Bot, query: string, history: seq<Turn>)
    ensures var r := Answer(bot, query, history);
      r.request.Some? && bot.complete(r.request.value).None? ==> r.text == Fallback
  {
  }

  // ---------------------------------------------------------------------------
  // Bounded history
  // ---------------------------------------------------------------------------

  /** The last `HistoryLimit` turns of a conversation (all of them if fewer). */
  function Recent(turns: seq<Turn>): seq<Turn> {
    if |turns| <= HistoryLimit then turns else turns[|turns| - HistoryLimit..]
  }

  /** `chat_history.append(turn)` followed by `pop(0)` when the length
      exceeds five: from a history of at most five turns this keeps the five
      most recent turns in chronological order. */
  function Remember(history: seq<Turn>, turn: Turn): (r: seq<Turn>)
    ensures |history| <= HistoryLimit ==> r == Recent(history + [turn]) && |r| <= HistoryLimit
  {
    var h := history + [turn];
    if |h| > HistoryLimit then h[1..] else h
  }

  /** Keeping the recent turns of a prefix and then of the whole is the same
      as keeping the recent turns of the whole. */
  lemma {:induction false} RecentAbsorbs(xs: seq<Turn>, ys: seq<Turn>)
    ensures Recent(Recent(xs) + ys) == Recent(xs + ys)
  {
    if |xs| > HistoryLimit {
      var a := Recent(xs) + ys;
      var b := xs + ys;
      assert Recent(a) == Recent(b) by {
        assert |a| == HistoryLimit + |ys|;
        assert a[|a| - HistoryLimit..] == b[|b| - HistoryLimit..];
      }
    }
  }

  // ---------------------------------------------------------------------------
  // The console loop of start_advanced_chat
  // ---------------------------------------------------------------------------

  datatype Ending = QuitCommand | EndOfInput

  /** One answered input line: the stripped input and the reply printed. */
  datatype Exchange = Exchange(input: string, reply: Reply)

  datatype Session = Session(history: seq<Turn>, exchanges: seq<Exchange>, ending: Ending)

  /** The turns a list of exchanges appends to the history. */
  function TurnsOf(exchanges: seq<Exchange>): seq<Turn> {
    seq(|exchanges|, j requires 0 <= j < |exchanges| => Turn(exchanges[j].input, exchanges[j].reply.text))
  }

  /** How the loop answers a line, given the history: `Answer` for a bot. */
  type Responder = (string, seq<Turn>) -> Reply

  function Respond(bot: Bot): Responder {
    (query: string, history: seq<Turn>) => Answer(bot, query, history)
  }

  /** The loop: strip each line; a quit word ends the session; anything else
      is answered and remembered, apology and fallback answers included. The
      answering step is a parameter: the loop does not depend on how a line
      is answered, and `Start` passes `Respond(bot)`. */
  function Converse(respond: Responder, lines: seq<string>, history: seq<Turn>): Session
    decreases |lines|
  {
    if lines == [] then Session(history, [], EndOfInput)
    else
      var input := Strip(lines[0]);
      if IsQuitCommand(input) then Session(history, [], QuitCommand)
      else
        var reply := respond(input, history);
        var rest := Converse(respond, lines[1..], Remember(history, Turn(input, reply.text)));
        Session(rest.history, [Exchange(input, reply)] + rest.exchanges, rest.ending)
  }

  /** One step of the loop: a line that is not a quit word is answered and
      the rest of the session continues from the updated history. */
  lemma {:induction false} ConverseStep(respond: Responder, lines: seq<string>, history: seq<Turn>)
    requires lines != []
    ensures var input := Strip(lines[0]);
      var s := Converse(respond, lines, history);
      !IsQuitCommand(input) ==>
        var reply := respond(input, history);
        var rest := Converse(respond, lines[1..], Remember(history, Turn(input, reply.text)));
        s == Session(rest.history, [Exchange(input, reply)] + rest.exchanges, rest.ending)
  {
  }

  /** The answered lines are the leading lines that are not quit words,
      stripped, in order. */
  lemma {:induction false} ConverseInputs(respond: Responder, lines: seq<string>, history: seq<Turn>)
    ensures var s := Converse(respond, lines, history);
      && |s.exchanges| <= |lines|
      && forall j :: 0 <= j < |s.exchanges| ==>
           s.exchanges[j].input == Strip(lines[j]) && !IsQuitCommand(Strip(lines[j]))
    decreases |lines|
  {
    var s := Converse(respond, lines, history);
    if lines != [] && !IsQuitCommand(Strip(lines[0])) {
      var input := Strip(lines[0]);
      var h := Remember(history, Turn(input, respond(input, history).text));
      var tail := lines[1..];
      ConverseInputs(respond, tail, h);
      ConverseStep(respond, lines, history);
      var rest := Converse(respond, tail, h);
      forall j | 0 < j < |s.exchanges|
        ensures s.exchanges[j].input == Strip(lines[j]) && !IsQuitCommand(Strip(lines[j]))
      {
        assert s.exchanges[j] == rest.exchanges[j - 1];
        assert lines[j] == tail[j - 1];
      }
    }
  }

  /** The session ends on a quit word exactly when lines are left over, and
      then the first line left over is a quit word. */
  lemma {:induction false} ConverseEnding(respond: Responder, lines: seq<string>, history: seq<Turn>)
    ensures var s := Converse(respond, lines, history);
      && |s.exchanges| <= |lines|
      && (s.ending == QuitCommand <==> |s.exchanges| < |lines|)
      && (|s.exchanges| < |lines| ==> IsQuitCommand(Strip(lines[|s.exchanges|])))
    decreases |lines|
  {
    var s := Converse(respond, lines, history);
    if lines != [] && !IsQuitCommand(Strip(lines[0])) {
      var input := Strip(lines[0]);
      var h := Remember(history, Turn(input, respond(input, history).text));
      var tail := lines[1..];
      ConverseEnding(respond, tail, h);
      ConverseStep(respond, lines, history);
      var rest := Converse(respond, tail, h);
      assert |s.exchanges| == |rest.exchanges| + 1 && s.ending == rest.ending;
      if |s.exchanges| < |lines| {
        assert lines[|s.exchanges|] == tail[|rest.exchanges|];
      }
    }
  }

  /** Every line before the first quit word is answered, in order, with its
      stripped text as the input; the first quit word ends the session and
      nothing after it is read or answered. */
  lemma {:induction false} ConverseStopsAtQuit(respond: Responder, lines: seq<string>, history: seq<Turn>)
    ensures var s := Converse(respond, lines, history);
      && |s.exchanges| <= |lines|
      && (forall j :: 0 <= j < |s.exchanges| ==>
            s.exchanges[j].input == Strip(lines[j]) && !IsQuitCommand(Strip(lines[j])))
      && (s.ending == QuitCommand <==> |s.exchanges| < |lines|)
      && (|s.exchanges| < |lines| ==> IsQuitCommand(Strip(lines[|s.exchanges|])))
  {
    ConverseInputs(respond, lines, history);
    ConverseEnding(respond, lines, history);
  }

  lemma {:induction false} TurnsOfCons(e: Exchange, rest: seq<Exchange>)
    ensures TurnsOf([e] + rest) == [Turn(e.input, e.reply.text)] + TurnsOf(rest)
  {
  }

  lemma {:induction false} TurnsOfConsPrefix(e: Exchange, rest: seq<Exchange>, k: nat)
    requires k <= |rest|
    ensures TurnsOf(([e] + rest)[..k + 1]) == [Turn(e.input, e.reply.text)] + TurnsOf(rest[..k])
  {
    assert ([e] + rest)[..k + 1] == [e] + rest[..k];
    TurnsOfCons(e, rest[..k]);
  }

  /** Remembering a turn and then keeping the recent part of what follows is
      keeping the recent part of the whole conversation. */
  lemma {:induction false} RememberThenRecent(history: seq<Turn>, turn: Turn, later: seq<Turn>)
    requires |history| <= HistoryLimit
    ensures Recent(Remember(history, turn) + later) == Recent(history + ([turn] + later))
  {
    RecentAbsorbs(history + [turn], later);
    assert history + [turn] + later == history + ([turn] + later);
  }

  /** The history after the loop holds the most recent turns, at most five,
      oldest first. */
  lemma {:induction false} ConverseHistory(respond: Responder, lines: seq<string>, history: seq<Turn>)
    requires |history| <= HistoryLimit
    ensures var s := Converse(respond, lines, history);
      s.history == Recent(history + TurnsOf(s.exchanges)) && |s.history| <= HistoryLimit
    decreases |lines|
  {
    var s := Converse(respond, lines, history);
    if lines == [] || IsQuitCommand(Strip(lines[0])) {
      assert history + TurnsOf(s.exchanges) == history;
    } else {
      var input := Strip(lines[0]);
      var reply := respond(input, history);
      var turn := Turn(input, reply.text);
      var h := Remember(history, turn);
      ConverseHistory(respond, lines[1..], h);
      ConverseStep(respond, lines, history);
      var rest := Converse(respond, lines[1..], h);
      TurnsOfCons(Exchange(input, reply), rest.exchanges);
      RememberThenRecent(history, turn, TurnsOf(rest.exchanges));
    }
  }

  /** Each answered line was answered against the history as it stood
      before that line: the recent turns of everything said so far. */
  ghost predicate AnsweredInContext(respond: Responder, history: seq<Turn>, exchanges: seq<Exchange>) {
    forall j :: 0 <= j < |exchanges| ==>
      exchanges[j].reply == respond(exchanges[j].input, Recent(history + TurnsOf(exchanges[..j])))
  }

  lemma {:induction false} AnsweredInContextCons(respond: Responder, history: seq<Turn>, e: Exchange, rest: seq<Exchange>)
    requires |history| <= HistoryLimit
    requires e.reply == respond(e.input, history)
    requires AnsweredInContext(respond, Remember(history, Turn(e.input, e.reply.text)), rest)
    ensures AnsweredInContext(respond, history, [e] + rest)
  {
    var turn := Turn(e.input, e.reply.text);
    var h := Remember(history, turn);
    var all := [e] + rest;
    forall j | 0 <= j < |all|
      ensures all[j].reply == respond(all[j].input, Recent(history + TurnsOf(all[..j])))
    {
      var ctx := Recent(history + TurnsOf(all[..j]));
      if j == 0 {
        assert all[..0] == [];
        assert history + TurnsOf([]) == history;
        assert ctx == history;
      } else {
        var k := j - 1;
        assert all[j] == rest[k];
        TurnsOfConsPrefix(e, rest, k);
        RememberThenRecent(history, turn, TurnsOf(rest[..k]));
        assert ctx == Recent(h + TurnsOf(rest[..k]));
        assert rest[k].reply == respond(rest[k].input, Recent(h + TurnsOf(rest[..k])));
      }
    }
  }

  /** Every line was answered against the history as it stood before it. */
  lemma {:induction false} ConverseAnswersInContext(respond: Responder, lines: seq<string>, history: seq<Turn>)
    requires |history| <= HistoryLimit
    ensures AnsweredInContext(respond, history, Converse(respond, lines, history).exchanges)
    decreases |lines|
  {
    var s := Converse(respond, lines, history);
    if lines != [] && !IsQuitCommand(Strip(lines[0])) {
      var input := Strip(lines[0]);
      var reply := respond(input, history);
      var h := Remember(history, Turn(input, reply.text));
      ConverseAnswersInContext(respond, lines[1..], h);
      ConverseStep(respond, lines, history);
      AnsweredInContextCons(respond, history, Exchange(input, reply), Converse(respond, lines[1..], h).exchanges);
    }
  }

  // ---------------------------------------------------------------------------
  // start_advanced_chat
  // ---------------------------------------------------------------------------

  datatype Outcome = ScrapeFailed | EmptyIndex | Chatted(kb: KnowledgeBase, session: Session)

  /** Scrape, build, then chat. `if not self.scraped_data` stops on a failed
      fetch (and on an empty dictionary, which the scraper never returns);
      an empty chunk list stops before the chat; otherwise the loop runs
      with the freshly built knowledge base, an empty history, and the
      generator's default model, which is the only one the chatbot uses. */
  function Start(scraped: Option<ScrapedContent>, sim: (string, nat) -> real,
                 complete: Request -> Option<string>, lines: seq<string>): (r: Outcome)
    ensures r.ScrapeFailed? <==> scraped.None? || scraped.value == []
    ensures r.EmptyIndex? <==> scraped.Some? && scraped.value != [] && Items(scraped.value) == []
    ensures r.Chatted? ==>
      && Searchable(r.kb)
      && r.kb.chunks == Pack(Items(scraped.value)).chunks
      && r.session == Converse(Respond(Bot(r.kb, DefaultModel, sim, complete)), lines, [])
  {
    if scraped.None? || scraped.value == [] then ScrapeFailed
    else
      var kb := Build(Fresh(), scraped.value);
      if kb.chunks == [] then EmptyIndex
      else Chatted(kb, Converse(Respond(Bot(kb, DefaultModel, sim, complete)), lines, []))
  }

  /** Once the chat has started the knowledge base is searchable, so every
      answered line goes to the completion API: the apology is never given,
      and the history stays within five turns. */
  lemma {:induction false} StartedChatAlwaysGenerates(scraped: Option<ScrapedContent>, sim: (string, nat) -> real,
                                   complete: Request -> Option<string>, lines: seq<string>)
    ensures var r := Start(scraped, sim, complete, lines);
      r.Chatted? ==>
        && |r.session.history| <= HistoryLimit
        && forall j :: 0 <= j < |r.session.exchanges| ==> r.session.exchanges[j].reply.request.Some?
  {
    var r := Start(scraped, sim, complete, lines);
    if r.Chatted? {
      var bot := Bot(r.kb, DefaultModel, sim, complete);
      ConverseHistory(Respond(bot), lines, []);
      ConverseAnswersInContext(Respond(bot), lines, []);
      forall j | 0 <= j < |r.session.exchanges| ensures r.session.exchanges[j].reply.request.Some? {
        var e := r.session.exchanges[j];
        var context := Recent([] + TurnsOf(r.session.exchanges[..j]));
        assert e.reply == Respond(bot)(e.input, context);
        assert e.reply == Answer(bot, e.input, context);
      }
    }
  }
}
