/**
 * The background workers: loading a PDF, answering a question as a
 * stream of word tokens, and the long-lived speech worker that turns
 * queued sentences into audio files one at a time. Thread start-up and
 * signal delivery are left to the caller: each `Run` returns the
 * signals it emits, in order.
 */
module Workers {
  import opened Common
  import opened Strings
  import TextProcessor
  import Rag

  /** The signals of `LoadPDFWorker`. */
  datatype LoadSignal = LoadProgress(pageIndex: nat) | LoadFinished(pageCount: nat) | LoadError(message: string)

  function ProgressSignals(indices: seq<nat>): (r: seq<LoadSignal>)
    ensures |r| == |indices|
    ensures forall i :: 0 <= i < |r| ==> r[i] == LoadProgress(indices[i])
  {
    if indices == [] then [] else ProgressSignals(indices[..|indices| - 1]) + [LoadProgress(indices[|indices| - 1])]
  }

  /**
   * `LoadPDFWorker.run`: the loader's progress reports, then the page
   * count on success or the error text on failure.
   */
  method LoadPdfRun(rag: Rag.RagSystem, doc: Result<seq<Rag.Page>, string>) returns (signals: seq<LoadSignal>)
    modifies rag
    ensures rag.Consistent()
    ensures doc.Err? ==> signals == [LoadError(Rag.PdfError(doc.error))]
    ensures doc.Ok? ==>
      var pages, k := doc.value, Rag.ReadableCount(doc.value);
      signals == ProgressSignals(Rag.ProgressIndices(|pages|, k)) +
        [if k == |pages| then LoadFinished(|Rag.KeptRecords(pages)|) else LoadError(Rag.PdfError(pages[k].error))]
  {
    var result, progress := rag.ProcessPdf(doc);
    if doc.Ok? {
      assert doc.value[..|doc.value|] == doc.value;
    }
    var last := if result.Ok? then LoadFinished(result.value) else LoadError(result.error);
    signals := ProgressSignals(progress) + [last];
  }

  /** The words of `res.split(" ")`, each followed by one space, run together. */
  function Spaced(ws: seq<string>): string {
    if ws == [] then [] else Spaced(ws[..|ws| - 1]) + ws[|ws| - 1] + " "
  }

  lemma {:induction false} SpacedIsJoin(ws: seq<string>)
    requires |ws| >= 1
    ensures Spaced(ws) == Join(ws, ' ') + " "
    decreases |ws|
  {
    if |ws| > 1 {
      var init, last := ws[..|ws| - 1], ws[|ws| - 1];
      SpacedIsJoin(init);
      assert ws == init + [last];
      JoinSnoc(init, last, ' ');
      calc {
        Spaced(ws);
        Spaced(init) + last + " ";
        Join(init, ' ') + " " + last + " ";
        { assert " " == [' ']; }
        Join(init, ' ') + [' '] + last + " ";
        Join(ws, ' ') + " ";
      }
    } else {
      assert ws[..0] == [];
    }
  }

  lemma {:induction false} JoinSnoc(ws: seq<string>, w: string, sep: char)
    requires |ws| >= 1
    ensures Join(ws + [w], sep) == Join(ws, sep) + [sep] + w
    decreases |ws|
  {
    if |ws| == 1 {
      assert (ws + [w])[1..] == [w];
    } else {
      assert (ws + [w])[1..] == ws[1..] + [w];
      JoinSnoc(ws[1..], w, sep);
    }
  }

  /** The re-chunked reply streams back the reply itself, with one trailing space. */
  lemma SpacedSplit(res: string)
    ensures Spaced(Split(res, ' ')) == res + " "
  {
    SpacedIsJoin(Split(res, ' '));
    JoinSplit(res, ' ');
  }

  /** What `QueryWorker.run` emits: the token signals in order, then the finished text. */
  datatype QueryOutcome = QueryOutcome(tokens: seq<string>, finished: string)

  function Concat(ts: seq<string>): string {
    if ts == [] then [] else Concat(ts[..|ts| - 1]) + ts[|ts| - 1]
  }

  /** The streaming loop of `QueryWorker.run`: one token per word, each followed by a space. */
  method StreamWords(words: seq<string>) returns (tokens: seq<string>, accumulated: string)
    ensures |tokens| == |words| && forall i :: 0 <= i < |words| ==> tokens[i] == words[i] + " "
    ensures accumulated == Spaced(words) && accumulated == Concat(tokens)
  {
    tokens := [];
    accumulated := "";
    for k := 0 to |words|
      invariant |tokens| == k
      invariant forall i :: 0 <= i < k ==> tokens[i] == words[i] + " "
      invariant accumulated == Spaced(words[..k])
      invariant accumulated == Concat(tokens)
    {
      var chunk := words[k] + " ";
      tokens := tokens + [chunk];
      assert tokens[..k] == tokens[..|tokens| - 1];
      assert words[..k + 1][..k] == words[..k];
      accumulated := accumulated + chunk;
    }
    assert words[..|words|] == words;
  }

  /**
   * `QueryWorker.run`: mode "rag" asks the document, any other mode asks
   * the general assistant (whose reply is given). The fallback marker is
   * passed through untouched with no tokens; any other reply is streamed
   * as the pieces of `res.split(" ")`, each followed by a space, and the
   * finished text is the tokens run together: the reply plus one space.
   */
  method QueryRun(rag: Rag.RagSystem, question: string, mode: string,
                  answer: Result<string, string>, generalReply: string) returns (out: QueryOutcome)
    ensures var res := if mode == "rag" then Rag.QueryReply(rag.pageTexts, rag.fullText, rag.totalTokens, question, answer)
                       else generalReply;
      (res == Rag.AskFallback ==> out == QueryOutcome([], res)) &&
      (res != Rag.AskFallback ==>
        var words := Split(res, ' ');
        out.finished == res + " " && out.finished == Concat(out.tokens) &&
        |out.tokens| == |words| && forall i :: 0 <= i < |words| ==> out.tokens[i] == words[i] + " ")
  {
    var res: string;
    if mode == "rag" {
      res := rag.Query(question, answer);
    } else {
      res := generalReply;
    }
    if res == Rag.AskFallback {
      return QueryOutcome([], res);
    }
    var words := Split(res, ' ');
    var tokens, accumulated := StreamWords(words);
    SpacedSplit(res);
    out := QueryOutcome(tokens, accumulated);
  }

  /** A speech voice as the engine lists it. */
  datatype Voice = Voice(id: string, name: string)

  predicate IsTurkishVoice(v: Voice) {
    Contains(Lower(v.id), "tr") || Contains(Lower(v.name), "turkish") || Contains(Lower(v.name), "tolga")
  }

  /** The index of the first Turkish voice. */
  function FirstTurkishVoice(voices: seq<Voice>): (r: Option<nat>)
    ensures r.Some? ==> r.value < |voices| && IsTurkishVoice(voices[r.value])
    ensures r.Some? ==> forall j :: 0 <= j < r.value ==> !IsTurkishVoice(voices[j])
    ensures r.None? ==> forall j :: 0 <= j < |voices| ==> !IsTurkishVoice(voices[j])
  {
    if voices == [] then None
    else if IsTurkishVoice(voices[0]) then Some(0)
    else match FirstTurkishVoice(voices[1..])
      case None => None
      case Some(i) => Some(i + 1)
  }

  /**
   * The voice search of `PersistentTTSWorker.run`: the id of the first
   * Turkish voice, set on the engine only when it is non-empty; `None`
   * keeps the engine's default voice.
   */
  method SelectVoice(voices: seq<Voice>) returns (chosen: Option<string>)
    ensures chosen == SelectVoiceSpec(voices)
    ensures chosen.Some? ==>
      (chosen.value != "" && FirstTurkishVoice(voices).Some? && chosen.value == voices[FirstTurkishVoice(voices).value].id)
    ensures chosen.None? ==> FirstTurkishVoice(voices).None? || voices[FirstTurkishVoice(voices).value].id == ""
  {
    var turkish: Option<string> := None;
    var i := 0;
    while i < |voices|
      invariant 0 <= i <= |voices|
      invariant forall j :: 0 <= j < i ==> !IsTurkishVoice(voices[j])
    {
      if IsTurkishVoice(voices[i]) {
        FirstTurkishVoiceIs(voices, i);
        turkish := Some(voices[i].id);
        break;
      }
      i := i + 1;
    }
    if turkish.Some? && turkish.value != "" {
      chosen := turkish;
    } else {
      chosen := None;
    }
  }

  lemma {:induction false} FirstTurkishVoiceIs(voices: seq<Voice>, i: nat)
    requires i < |voices| && IsTurkishVoice(voices[i])
    requires forall j :: 0 <= j < i ==> !IsTurkishVoice(voices[j])
    ensures FirstTurkishVoice(voices) == Some(i)
  {
    if i > 0 {
      FirstTurkishVoiceIs(voices[1..], i - 1);
    }
  }

  /** What synthesising one sentence produced: a file (whether it exists and its size), or an exception. */
  datatype SynthResult = Written(path: string, present: bool, size: nat) | Raised(message: string)

  datatype TtsSignal = TtsFinished(path: string) | TtsError(message: string)

  const NoEngineMessage: string := "pyttsx3 mod\U{FC}l\U{FC} eksik."
  const NoAudioMessage: string := "Ses dosyas\U{131} olu\U{15F}turulamad\U{131}."

  /** The one signal an item produces: the file only if it exists and is non-empty. */
  function Outcome(r: SynthResult): (s: TtsSignal)
    ensures s.TtsFinished? <==> r.Written? && r.present && r.size > 0
    ensures s.TtsFinished? ==> s.path == r.path
  {
    match r
    case Written(path, present, size) => if present && size > 0 then TtsFinished(path) else TtsError(NoAudioMessage)
    case Raised(message) => TtsError(message)
  }

  /** The sentences ahead of the first `None` in the queue. */
  function Leading(q: seq<Option<string>>): (r: seq<string>)
    ensures |r| <= |q|
  {
    if q == [] || q[0].None? then [] else [q[0].value] + Leading(q[1..])
  }

  /** `r` is what the queue `q` holds before its first `None`. */
  predicate LeadsWith(q: seq<Option<string>>, r: seq<string>) {
    && |r| <= |q|
    && (forall i :: 0 <= i < |r| ==> q[i] == Some(r[i]))
    && (|r| < |q| ==> q[|r|].None?)
  }

  /** The leading sentences are the queue's items, unwrapped, up to its first `None`. */
  lemma {:induction false} LeadingShape(q: seq<Option<string>>)
    ensures LeadsWith(q, Leading(q))
  {
    if q != [] && q[0].Some? {
      LeadingShape(q[1..]);
      var r := Leading(q);
      assert r == [q[0].value] + Leading(q[1..]);
      forall i | 0 <= i < |r| ensures q[i] == Some(r[i]) {
        if i > 0 { assert r[i] == Leading(q[1..])[i - 1]; }
      }
    }
  }

  /** The queue once the run has stopped: what follows the consumed `None`, or nothing. */
  function AfterSentinel(q: seq<Option<string>>): seq<Option<string>> {
    var n := |Leading(q)|;
    if n < |q| then q[n + 1..] else []
  }

  /** The signal for the `k`-th item handled, given what the engine produced for its cleaned text. */
  function ItemSignal(synth: (nat, Option<string>, string) -> SynthResult, voice: Option<string>, k: nat, text: string): TtsSignal {
    Outcome(synth(k, voice, TextProcessor.BasicTextCleanup(text)))
  }

  /** The signals for a run of sentences, the `k`-th numbered `k`, in order. */
  function ItemSignals(synth: (nat, Option<string>, string) -> SynthResult, voice: Option<string>, items: seq<string>): (r: seq<TtsSignal>)
    ensures |r| == |items|
  {
    if items == [] then []
    else ItemSignals(synth, voice, items[..|items| - 1]) + [ItemSignal(synth, voice, |items| - 1, items[|items| - 1])]
  }

  /** The `k`-th signal is the outcome of synthesising the `k`-th sentence, cleaned, with the chosen voice. */
  lemma {:induction false} ItemSignalsAt(synth: (nat, Option<string>, string) -> SynthResult, voice: Option<string>, items: seq<string>, k: nat)
    requires k < |items|
    ensures ItemSignals(synth, voice, items)[k] == ItemSignal(synth, voice, k, items[k])
  {
    if k < |items| - 1 {
      ItemSignalsAt(synth, voice, items[..|items| - 1], k);
    }
  }

  /** Handling one more sentence extends the signals by its own. */
  lemma ItemSignalsSnoc(synth: (nat, Option<string>, string) -> SynthResult, voice: Option<string>, items: seq<string>, k: nat)
    requires k < |items|
    ensures ItemSignals(synth, voice, items[..k + 1]) == ItemSignals(synth, voice, items[..k]) + [ItemSignal(synth, voice, k, items[k])]
  {
    assert items[..k + 1][..k] == items[..k];
  }

  /**
   * The body of the worker loop for one sentence: choose the voice,
   * clean the text for speech, synthesise it, and turn the outcome into
   * one signal.
   */
  method HandleItem(k: nat, text: string, voices: seq<Voice>, synth: (nat, Option<string>, string) -> SynthResult)
    returns (signal: TtsSignal)
    ensures signal == ItemSignal(synth, SelectVoiceSpec(voices), k, text)
  {
    var chosen := SelectVoice(voices);
    var clean := TextProcessor.BasicTextCleanup(text);
    var result := synth(k, chosen, clean);
    signal := Outcome(result);
  }

  /** The speech worker: a FIFO of sentences ended by `None`, and the running flag. */
  class PersistentTtsWorker {
    var queue: seq<Option<string>>
    var running: bool
    var tasksDone: nat

    constructor()
      ensures queue == [] && running && tasksDone == 0
    {
      queue := [];
      running := true;
      tasksDone := 0;
    }

    /** `speak`: the sentence joins the back of the queue. */
    method Speak(text: string)
      modifies this`queue
      ensures queue == old(queue) + [Some(text)]
    {
      queue := queue + [Some(text)];
    }

    /** `stop`: clears the running flag and queues the `None` that ends the loop (joining the thread is left out). */
    method Stop()
      modifies this`running, this`queue
      ensures queue == old(queue) + [None] && !running
    {
      running := false;
      queue := queue + [None];
    }

    /**
     * `run`: without the speech engine, one error and nothing consumed.
     * Otherwise, while running, items are taken from the front until a
     * `None` (or, in this sequential model, until the queue is empty
     * where the thread would wait); each sentence is cleaned,
     * synthesised with the chosen voice, and produces exactly one
     * signal, and each is marked done.
     */
    method Run(hasEngine: bool, voices: seq<Voice>, synth: (nat, Option<string>, string) -> SynthResult)
      returns (signals: seq<TtsSignal>)
      modifies this`queue, this`tasksDone
      ensures !hasEngine ==> signals == [TtsError(NoEngineMessage)] && queue == old(queue) && tasksDone == old(tasksDone)
      ensures hasEngine && !old(running) ==> signals == [] && queue == old(queue) && tasksDone == old(tasksDone)
      ensures hasEngine && old(running) ==>
        var items := Leading(old(queue));
        queue == AfterSentinel(old(queue)) &&
        signals == ItemSignals(synth, SelectVoiceSpec(voices), items) && tasksDone == old(tasksDone) + |items|
    {
      if !hasEngine {
        return [TtsError(NoEngineMessage)];
      }
      signals := [];
      ghost var q0 := queue;
      ghost var items := Leading(q0);
      ghost var voice := SelectVoiceSpec(voices);
      var k := 0;
      ghost var stopped := false;
      assert q0[k..] == q0;
      assert items[..k] == [];
      while running && queue != []
        invariant !running ==> k == 0
        invariant !stopped
        invariant k <= |items|
        invariant queue == q0[k..]
        invariant signals == ItemSignals(synth, voice, items[..k]) && tasksDone == old(tasksDone) + k
        decreases |queue|
      {
        var signal := Serve(q0, k, voices, synth);
        if signal.None? {
          assert items[..k] == items;
          stopped := true;
          break;
        }
        ItemSignalsSnoc(synth, voice, items, k);
        signals := signals + [signal.value];
        k := k + 1;
      }
      if running && !stopped {
        assert k == |q0|;
        NoSentinel(q0);
        assert items[..k] == items;
      }
    }

    /**
     * One turn of the loop: take the front of the queue; `None` ends the
     * run, a sentence is handled and marked done.
     */
    method Serve(ghost q0: seq<Option<string>>, k: nat, voices: seq<Voice>, synth: (nat, Option<string>, string) -> SynthResult)
      returns (signal: Option<TtsSignal>)
      modifies this`queue, this`tasksDone
      requires queue != [] && k <= |Leading(q0)| && k <= |q0| && queue == q0[k..]
      ensures signal.None? ==> k == |Leading(q0)| && queue == AfterSentinel(q0) && tasksDone == old(tasksDone)
      ensures signal.Some? ==>
        && k < |Leading(q0)| && queue == q0[k + 1..] && tasksDone == old(tasksDone) + 1
        && signal.value == ItemSignal(synth, SelectVoiceSpec(voices), k, Leading(q0)[k])
    {
      var text := queue[0];
      LeadingAt(q0, k);
      queue := queue[1..];
      if text.None? {
        return None;
      }
      var item := HandleItem(k, text.value, voices, synth);
      tasksDone := tasksDone + 1;
      signal := Some(item);
    }
  }

  /** The voice the engine is given, as a function of the listed voices. */
  function SelectVoiceSpec(voices: seq<Voice>): Option<string> {
    match FirstTurkishVoice(voices)
    case None => None
    case Some(i) => if voices[i].id != "" then Some(voices[i].id) else None
  }

  /** A queue with no `None` is consumed whole. */
  lemma NoSentinel(q: seq<Option<string>>)
    requires |Leading(q)| >= |q|
    ensures Leading(q) == Leading(q)[..|q|] && AfterSentinel(q) == []
  {
  }

  /** Within the leading run, the item at `k` is either the sentinel ending it or its `k`-th sentence. */
  lemma LeadingAt(q: seq<Option<string>>, k: nat)
    requires k <= |Leading(q)| && k < |q|
    ensures q[k].None? <==> k == |Leading(q)|
    ensures q[k].None? ==> AfterSentinel(q) == q[k + 1..]
    ensures q[k].Some? ==> Leading(q)[k] == q[k].value
  {
    LeadingShape(q);
  }
}
