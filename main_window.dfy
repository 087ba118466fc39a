/**
 * The speech playback side of the main window. Sentences wait in a
 * generation queue until they are handed to the speech worker; finished
 * clips wait in an audio queue and are played one after another; two
 * busy flags keep a new clip from interrupting the one playing. Each Qt
 * slot is a method, called one at a time. The files on disk are a map
 * from path to contents, the media player is the source it was given
 * and whether it was told to play, and the speaking visualizer is given
 * each clip as it starts and stopped when playback stops.
 */
module MainApp {
  import opened Common
  import opened Strings
  import Workers
  import opened WavDecoder
  import AudioVisualizer

  /** `ApiKeyDialog.validate`: saving is enabled for a stripped key that starts with "sk-" and is longer than 20 characters. */
  predicate ApiKeyValid(key: string) {
    var k := Strip(key);
    HasPrefix(k, "sk-") && |k| > 20
  }

  /** An accepted key holds "sk-" and more than 20 characters, and stripping it again changes nothing. */
  lemma ApiKeyValidShape(key: string)
    requires ApiKeyValid(key)
    ensures Contains(key, "sk-") && |key| > 20
    ensures ApiKeyValid(Strip(key))
  {
    var l := StripLeft(key);
    var k := StripRight(l);
    var off := |key| - |l|;
    assert key[off..off + 3] == l[..3] == k[..3] == "sk-";
    assert OccursAt(key, "sk-", off);
  }

  /** Whitespace around the key does not matter; without it, the rule reads on the key itself. */
  lemma ApiKeyUnpadded(key: string)
    requires key == [] || (!IsSpace(key[0]) && !IsSpace(key[|key| - 1]))
    ensures ApiKeyValid(key) <==> HasPrefix(key, "sk-") && |key| > 20
  {
  }

  const Ready: string := "Haz\U{131}r"
  const Answering: string := "Yan\U{131}tlan\U{131}yor..."
  const EmptyClipMessage: string := "Ses dosyas\U{131} olu\U{15F}turulamad\U{131} veya bo\U{15F}"

  function MissingMessage(path: string): string {
    "Ses dosyas\U{131} bulunamad\U{131}: " + path
  }

  function TtsErrorMessage(error: string): string {
    "Ses hatas\U{131}: " + error
  }

  function MediaErrorMessage(error: string): string {
    "Ses \U{E7}alma hatas\U{131}: " + error
  }

  /** `file_path and os.path.exists(file_path)`, against the files present. */
  predicate Exists(path: string, disk: map<string, seq<byte>>) {
    path != "" && path in disk
  }

  /** The position of the first clip whose file exists, or the queue's length when none does. */
  function FirstPlayable(q: seq<string>, disk: map<string, seq<byte>>): (i: nat)
    ensures i <= |q|
  {
    if q == [] || Exists(q[0], disk) then 0 else 1 + FirstPlayable(q[1..], disk)
  }

  /** Every clip before that position is missing, and the clip at it, if any, exists. */
  lemma {:induction false} FirstPlayableShape(q: seq<string>, disk: map<string, seq<byte>>)
    ensures var i := FirstPlayable(q, disk);
      (forall j :: 0 <= j < i ==> !Exists(q[j], disk)) && (i < |q| ==> Exists(q[i], disk))
  {
    if q != [] && !Exists(q[0], disk) {
      FirstPlayableShape(q[1..], disk);
      forall j | 0 < j < FirstPlayable(q, disk) ensures !Exists(q[j], disk) {
        assert q[j] == q[1..][j - 1];
      }
    }
  }

  /** Up to the first playable clip, a clip is played exactly when its file exists. */
  lemma FirstPlayableAt(q: seq<string>, disk: map<string, seq<byte>>, k: nat)
    requires k <= FirstPlayable(q, disk) && k < |q|
    ensures Exists(q[k], disk) <==> k == FirstPlayable(q, disk)
  {
    FirstPlayableShape(q, disk);
  }

  /** A clip joining the back of a queue that already holds a playable clip does not change which one plays next. */
  lemma FirstPlayableAppend(q: seq<string>, path: string, disk: map<string, seq<byte>>)
    requires FirstPlayable(q, disk) < |q|
    ensures FirstPlayable(q + [path], disk) == FirstPlayable(q, disk)
  {
    var i := FirstPlayable(q, disk);
    var i' := FirstPlayable(q + [path], disk);
    FirstPlayableShape(q, disk);
    FirstPlayableShape(q + [path], disk);
    assert (q + [path])[i] == q[i];
  }

  /** Behind clips that are all missing, a clip whose file exists is the one played. */
  lemma {:induction false} FirstPlayableAfterMissing(q: seq<string>, path: string, disk: map<string, seq<byte>>)
    requires FirstPlayable(q, disk) == |q| && Exists(path, disk)
    ensures FirstPlayable(q + [path], disk) == |q|
  {
    if q != [] {
      FirstPlayableShape(q, disk);
      assert !Exists(q[0], disk);
      assert (q + [path])[1..] == q[1..] + [path];
      FirstPlayableAfterMissing(q[1..], path, disk);
    }
  }

  /** One error line per missing clip, in queue order. */
  function MissingMessages(paths: seq<string>): (r: seq<string>)
    ensures |r| == |paths|
  {
    if paths == [] then [] else MissingMessages(paths[..|paths| - 1]) + [MissingMessage(paths[|paths| - 1])]
  }

  lemma {:induction false} MissingMessagesAt(paths: seq<string>, j: nat)
    requires j < |paths|
    ensures MissingMessages(paths)[j] == MissingMessage(paths[j])
  {
    if j < |paths| - 1 {
      MissingMessagesAt(paths[..|paths| - 1], j);
    }
  }

  /** The worker's queue entries for sentences handed over in order. */
  function Pending(sentences: seq<string>): (r: seq<Option<string>>)
    ensures |r| == |sentences|
  {
    if sentences == [] then [] else Pending(sentences[..|sentences| - 1]) + [Some(sentences[|sentences| - 1])]
  }

  lemma {:induction false} PendingAt(sentences: seq<string>, j: nat)
    requires j < |sentences|
    ensures Pending(sentences)[j] == Some(sentences[j])
  {
    if j < |sentences| - 1 {
      PendingAt(sentences[..|sentences| - 1], j);
    }
  }

  /** Handing over two runs of sentences one after the other is handing over both in order. */
  lemma {:induction false} PendingConcat(a: seq<string>, b: seq<string>)
    ensures Pending(a + b) == Pending(a) + Pending(b)
    decreases |b|
  {
    if b != [] {
      var b' := b[..|b| - 1];
      var x := b[|b| - 1];
      assert (a + b)[..|a + b| - 1] == a + b';
      assert (a + b)[|a + b| - 1] == x;
      PendingConcat(a, b');
      calc {
        Pending(a + b);
        Pending(a + b') + [Some(x)];
        Pending(a) + Pending(b') + [Some(x)];
        Pending(a) + Pending(b);
      }
    } else {
      assert a + b == a;
    }
  }

  datatype PlaybackState = Stopped | Playing | Paused

  /** The visualizer fields the playback slots touch. */
  datatype VizView = VizView(active: bool, audioData: Option<seq<Sample>>, sampleRate: nat, samplesPerFrame: nat, frameCount: nat)

  /** The visualizer after `set_audio_data` on a file the readers see as `wave` and `raw`. */
  function Loaded(v: VizView, wave: Option<WaveFrames>, raw: seq<byte>): VizView {
    match Decode(wave, raw)
    case Err(_) => v.(audioData := None)
    case Ok(a) =>
      if a.rate == 0 then v.(audioData := None, sampleRate := 0)
      else VizView(true, Some(a.samples), a.rate, AudioVisualizer.SamplesPerFrame(a.rate), 0)
  }

  /** The visualizer after `stop`. */
  function Halted(v: VizView): (r: VizView)
    ensures !r.active && r.audioData.None?
  {
    v.(active := false, audioData := None)
  }

  /**
   * Loading a clip gives the visualizer audio exactly when the clip
   * decodes at a positive rate, and then it runs from frame 0 on those
   * samples; otherwise it keeps no audio and its running state.
   */
  lemma LoadedShape(v: VizView, wave: Option<WaveFrames>, raw: seq<byte>)
    ensures var r := Loaded(v, wave, raw); var d := Decode(wave, raw);
      && (r.audioData.Some? <==> d.Ok? && d.value.rate > 0)
      && (r.audioData.Some? ==>
            r.active && r.frameCount == 0 && r.audioData.value == d.value.samples &&
            r.sampleRate == d.value.rate && r.samplesPerFrame == d.value.rate / 60)
      && (r.audioData.None? ==> r.active == v.active && r.frameCount == v.frameCount)
  {
  }

  /** A file that is not there yields no audio: the manual reader fails on an empty header. */
  lemma LoadedMissing(v: VizView)
    ensures Loaded(v, None, []).audioData.None?
  {
    ManualDecodeErrors([]);
  }

  /** What the media player was last told: the file it was given and whether it was told to play. */
  datatype Player = Player(source: Option<string>, playing: bool)

  class MainWindow {
    var ttsEnabled: bool
    /** `tts_generation_queue`: sentences not yet handed to the speech worker. */
    var ttsQueue: seq<string>
    var isGeneratingTts: bool
    /** Whether `active_tts_worker` is set and still running. */
    var activeWorkerRunning: bool
    var audioQueue: seq<string>
    var isPlayingAudio: bool
    var currentAudioFile: Option<string>
    var player: Player
    /** The files present, with their contents. */
    var disk: map<string, seq<byte>>
    /**
     * What the `wave` module reads from a file's contents: the output of
     * the conversion to 16-bit mono PCM, or the original file when both
     * ffmpeg runs fail. Its frames, or `None` when `wave` cannot read
     * what it was given.
     */
    const convert: seq<byte> -> Option<WaveFrames>
    var viz: AudioVisualizer.SpeakingVisualizer
    var status: string
    var stopVisible: bool
    /** The error lines added to the chat log, oldest first. */
    var log: seq<string>
    var tts: Workers.PersistentTtsWorker

    constructor(disk: map<string, seq<byte>>, convert: seq<byte> -> Option<WaveFrames>)
      ensures ttsEnabled && ttsQueue == [] && !isGeneratingTts && !activeWorkerRunning
      ensures audioQueue == [] && !isPlayingAudio && currentAudioFile == None && player == Player(None, false)
      ensures this.disk == disk && this.convert == convert && log == []
      ensures fresh(tts) && tts.queue == [] && tts.running && tts.tasksDone == 0
      ensures fresh(viz) && !viz.active && viz.audioData.None?
    {
      ttsEnabled := true;
      ttsQueue := [];
      isGeneratingTts := false;
      activeWorkerRunning := false;
      audioQueue := [];
      isPlayingAudio := false;
      currentAudioFile := None;
      player := Player(None, false);
      this.disk := disk;
      this.convert := convert;
      status := Ready;
      stopVisible := false;
      log := [];
      tts := new Workers.PersistentTtsWorker();
      viz := new AudioVisualizer.SpeakingVisualizer();
    }

    /** The visualizer's playback fields. */
    function Viz(): VizView
      reads this, viz
    {
      VizView(viz.active, viz.audioData, viz.sampleRate, viz.samplesPerFrame, viz.frameCount)
    }

    /** The visualizer after `set_audio_data(path)`: a missing file reads as no frames and no bytes. */
    function LoadedClip(v: VizView, path: string): VizView
      reads this
    {
      if path in disk then Loaded(v, convert(disk[path]), disk[path]) else Loaded(v, None, [])
    }

    /** Nothing queued, nothing generating or playing, and the worker has nothing pending. */
    predicate Quiet()
      reads this, tts, viz
    {
      && audioQueue == [] && ttsQueue == [] && tts.queue == []
      && !isPlayingAudio && !isGeneratingTts && !player.playing
      && status == Ready && !stopVisible
      && !viz.active && viz.audioData.None?
    }

    /**
     * The state `play_next_in_queue` leaves when started from the queue
     * `q`, the log `log0`, the current file `cur0`, the player `p0` and
     * the visualizer `v0`: the missing clips ahead of the first playable
     * one are dropped with one error line each, and that clip is playing
     * and loaded into the visualizer; with none, the queue is empty,
     * nothing is playing and the controls are reset.
     */
    predicate AdvancedFrom(q: seq<string>, log0: seq<string>, cur0: Option<string>, p0: Player, v0: VizView)
      reads this, viz
    {
      var i := FirstPlayable(q, disk);
      && log == log0 + MissingMessages(q[..i])
      && (i < |q| ==>
          && audioQueue == q[i + 1..] && isPlayingAudio && currentAudioFile == Some(q[i])
          && player == Player(Some(q[i]), true) && status == Answering && stopVisible
          && Viz() == LoadedClip(v0, q[i]))
      && (i == |q| ==>
          && audioQueue == [] && !isPlayingAudio && currentAudioFile == cur0 && player == p0
          && status == Ready && !stopVisible && Viz() == v0)
    }

    /** `reset_ui`: the status reads ready and the stop button is hidden. */
    method ResetUi()
      modifies this`status, this`stopVisible
      ensures status == Ready && !stopVisible
    {
      status := Ready;
      stopVisible := false;
    }

    /**
     * `play_audio`: the file becomes the current one, the visualizer
     * loads it, and the player is given it and started.
     */
    method PlayAudio(path: string)
      modifies this`currentAudioFile, this`player, this`status, this`stopVisible
      modifies viz`audioData, viz`sampleRate, viz`samplesPerFrame, viz`frameCount, viz`active
      ensures currentAudioFile == Some(path) && player == Player(Some(path), true)
      ensures status == Answering && stopVisible
      ensures Viz() == LoadedClip(old(Viz()), path)
    {
      currentAudioFile := Some(path);
      status := Answering;
      if path in disk {
        viz.SetAudioData(convert(disk[path]), disk[path]);
      } else {
        viz.SetAudioData(None, []);
      }
      stopVisible := true;
      player := Player(Some(path), true);
    }

    /**
     * `play_next_in_queue`: take clips from the front, skipping (and
     * logging) those whose file is missing, and play the first that
     * exists; an exhausted queue clears `is_playing_audio`.
     */
    method PlayNextInQueue()
      modifies this`audioQueue, this`isPlayingAudio, this`log
      modifies this`currentAudioFile, this`player, this`status, this`stopVisible
      modifies viz`audioData, viz`sampleRate, viz`samplesPerFrame, viz`frameCount, viz`active
      ensures AdvancedFrom(old(audioQueue), old(log), old(currentAudioFile), old(player), old(Viz()))
    {
      var found := TakePlayable();
      if found.Some? {
        PlayAudio(found.value);
      } else {
        isPlayingAudio := false;
        ResetUi();
      }
    }

    /** The recursion of `play_next_in_queue` over missing files: pop clips until one exists or none is left. */
    method TakePlayable() returns (found: Option<string>)
      modifies this`audioQueue, this`isPlayingAudio, this`log
      ensures var q, i := old(audioQueue), FirstPlayable(old(audioQueue), disk);
        && log == old(log) + MissingMessages(q[..i])
        && (i < |q| ==> found == Some(q[i]) && audioQueue == q[i + 1..] && isPlayingAudio)
        && (i == |q| ==> found == None && audioQueue == [])
    {
      ghost var q := audioQueue;
      ghost var i := FirstPlayable(q, disk);
      ghost var k := 0;
      while audioQueue != []
        invariant k <= i && audioQueue == q[k..]
        invariant log == old(log) + MissingMessages(q[..k])
        decreases |audioQueue|
      {
        isPlayingAudio := true;
        var path := audioQueue[0];
        audioQueue := audioQueue[1..];
        FirstPlayableAt(q, disk, k);
        if Exists(path, disk) {
          assert q[..k] == q[..i];
          return Some(path);
        }
        assert q[..k + 1][..k] == q[..k];
        log := log + [MissingMessage(path)];
        k := k + 1;
      }
      assert q[..k] == q[..i];
      return None;
    }

    /** `queue_audio`: the clip joins the back; playback starts only when nothing is playing. */
    method QueueAudio(path: string)
      modifies this`audioQueue, this`isPlayingAudio, this`log
      modifies this`currentAudioFile, this`player, this`status, this`stopVisible
      modifies viz`audioData, viz`sampleRate, viz`samplesPerFrame, viz`frameCount, viz`active
      ensures old(isPlayingAudio) ==>
        && audioQueue == old(audioQueue) + [path] && isPlayingAudio && Viz() == old(Viz())
        && unchanged(this`currentAudioFile, this`player, this`status, this`stopVisible, this`log)
      ensures !old(isPlayingAudio) ==>
        AdvancedFrom(old(audioQueue) + [path], old(log), old(currentAudioFile), old(player), old(Viz()))
    {
      audioQueue := audioQueue + [path];
      if !isPlayingAudio {
        isPlayingAudio := true;
        PlayNextInQueue();
      }
    }

    /**
     * `on_playback_state_changed`: on a stop, the visualizer stops, the
     * finished clip's file is deleted if it still exists and then
     * forgotten, and the queue advances if playback is still wanted;
     * otherwise the controls reset. `removeFails` is the outcome of
     * `os.remove`, whose error is swallowed: the file then stays on disk,
     * but it is forgotten all the same.
     */
    method OnPlaybackStateChanged(state: PlaybackState, removeFails: bool)
      modifies this`disk, this`audioQueue, this`isPlayingAudio, this`log
      modifies this`currentAudioFile, this`player, this`status, this`stopVisible
      modifies viz`audioData, viz`sampleRate, viz`samplesPerFrame, viz`frameCount, viz`active
      ensures state != Stopped ==>
        unchanged(this`disk, this`audioQueue, this`isPlayingAudio, this`log) &&
        unchanged(this`currentAudioFile, this`player, this`status, this`stopVisible) &&
        Viz() == old(Viz())
      ensures state == Stopped ==>
        var cur := old(currentAudioFile);
        var done := cur.Some? && Exists(cur.value, old(disk));
        && disk == (if done && !removeFails then old(disk) - {cur.value} else old(disk))
        && (old(isPlayingAudio) ==>
              AdvancedFrom(old(audioQueue), old(log), if done then None else cur, old(player), Halted(old(Viz()))))
        && (!old(isPlayingAudio) ==>
              && currentAudioFile == (if done then None else cur) && status == Ready && !stopVisible
              && Viz() == Halted(old(Viz()))
              && unchanged(this`audioQueue, this`isPlayingAudio, this`player, this`log))
    {
      if state == Stopped {
        viz.Stop();
        if currentAudioFile.Some? && Exists(currentAudioFile.value, disk) {
          if !removeFails {
            disk := disk - {currentAudioFile.value};
          }
          currentAudioFile := None;
        }
        if isPlayingAudio {
          PlayNextInQueue();
        } else {
          ResetUi();
        }
      }
    }

    /**
     * `stop_speaking`: both queues and the worker's pending items are
     * emptied (each drained item marked done), both busy flags cleared,
     * the player and the visualizer stopped and the controls reset. A
     * second call changes nothing.
     */
    method StopSpeaking()
      modifies this`audioQueue, this`isPlayingAudio, this`player, this`ttsQueue, this`isGeneratingTts
      modifies this`status, this`stopVisible, tts`queue, tts`tasksDone, viz`active, viz`audioData
      ensures Quiet()
      ensures player == old(player).(playing := false) && Viz() == Halted(old(Viz()))
      ensures tts.tasksDone == old(tts.tasksDone) + |old(tts.queue)|
      ensures old(Quiet()) ==>
        && unchanged(this`audioQueue, this`ttsQueue, this`isPlayingAudio, this`isGeneratingTts)
        && unchanged(this`player, this`status, this`stopVisible, tts`tasksDone)
        && Viz() == old(Viz())
    {
      audioQueue := [];
      isPlayingAudio := false;
      player := player.(playing := false);
      ttsQueue := [];
      isGeneratingTts := false;
      DrainWorker();
      viz.Stop();
      ResetUi();
    }

    /** The draining loop of `stop_speaking`: take every pending item off the worker's queue and mark it done. */
    method DrainWorker()
      modifies tts`queue, tts`tasksDone
      ensures tts.queue == [] && tts.tasksDone == old(tts.tasksDone) + |old(tts.queue)|
    {
      while tts.queue != []
        invariant |tts.queue| <= |old(tts.queue)|
        invariant tts.tasksDone == old(tts.tasksDone) + (|old(tts.queue)| - |tts.queue|)
        decreases |tts.queue|
      {
        tts.queue := tts.queue[1..];
        tts.tasksDone := tts.tasksDone + 1;
      }
    }

    /**
     * `process_tts_queue`: unless the queue is empty or a running worker
     * is still generating, every waiting sentence is handed to the speech
     * worker in arrival order, and the generating flag ends cleared.
     */
    method ProcessTtsQueue()
      modifies this`ttsQueue, this`isGeneratingTts, tts`queue
      ensures old(ttsQueue) == [] || (old(isGeneratingTts) && activeWorkerRunning) ==>
        unchanged(this`ttsQueue, this`isGeneratingTts, tts`queue)
      ensures old(ttsQueue) != [] && !(old(isGeneratingTts) && activeWorkerRunning) ==>
        ttsQueue == [] && !isGeneratingTts && tts.queue == old(tts.queue) + Pending(old(ttsQueue))
    {
      if ttsQueue == [] {
        return;
      }
      if isGeneratingTts {
        if !activeWorkerRunning {
          isGeneratingTts := false;
        } else {
          return;
        }
      }
      HandOver();
    }

    /** The recursion of `process_tts_queue` once the guards pass: hand each sentence over, front first. */
    method HandOver()
      requires !isGeneratingTts
      modifies this`ttsQueue, this`isGeneratingTts, tts`queue
      ensures ttsQueue == [] && !isGeneratingTts && tts.queue == old(tts.queue) + Pending(old(ttsQueue))
    {
      ghost var q := ttsQueue;
      ghost var w := tts.queue;
      ghost var k := 0;
      assert q[..0] == [];
      while ttsQueue != []
        invariant k <= |q| && ttsQueue == q[k..] && !isGeneratingTts
        invariant tts.queue == w + Pending(q[..k])
        decreases |ttsQueue|
      {
        isGeneratingTts := true;
        var sentence := ttsQueue[0];
        ttsQueue := ttsQueue[1..];
        assert q[..k + 1] == q[..k] + [sentence];
        PendingConcat(q[..k], [sentence]);
        tts.Speak(sentence);
        isGeneratingTts := false;
        k := k + 1;
      }
      assert q[..k] == q;
    }

    /** `on_sentence_ready`: with speech on, the sentence joins the generation queue, which is then processed. */
    method OnSentenceReady(sentence: string)
      modifies this`ttsQueue, this`isGeneratingTts, tts`queue
      ensures !ttsEnabled ==> unchanged(this`ttsQueue, this`isGeneratingTts, tts`queue)
      ensures ttsEnabled && !(old(isGeneratingTts) && activeWorkerRunning) ==>
        && ttsQueue == [] && !isGeneratingTts
        && tts.queue == old(tts.queue) + Pending(old(ttsQueue) + [sentence])
      ensures ttsEnabled && old(isGeneratingTts) && activeWorkerRunning ==>
        ttsQueue == old(ttsQueue) + [sentence] && unchanged(this`isGeneratingTts, tts`queue)
    {
      if ttsEnabled {
        ttsQueue := ttsQueue + [sentence];
        ProcessTtsQueue();
      }
    }

    /** `on_persistent_tts_finished`: a clip that exists and is not empty is queued; otherwise an error is logged and the controls reset. */
    method OnPersistentTtsFinished(path: string)
      modifies this`audioQueue, this`isPlayingAudio, this`log
      modifies this`currentAudioFile, this`player, this`status, this`stopVisible
      modifies viz`audioData, viz`sampleRate, viz`samplesPerFrame, viz`frameCount, viz`active
      ensures var ok := Exists(path, disk) && |disk[path]| > 0;
        && (ok && old(isPlayingAudio) ==>
              && audioQueue == old(audioQueue) + [path] && isPlayingAudio && Viz() == old(Viz())
              && unchanged(this`currentAudioFile, this`player, this`status, this`stopVisible, this`log))
        && (ok && !old(isPlayingAudio) ==>
              AdvancedFrom(old(audioQueue) + [path], old(log), old(currentAudioFile), old(player), old(Viz())))
        && (!ok ==>
              && log == old(log) + [EmptyClipMessage] && status == Ready && !stopVisible && Viz() == old(Viz())
              && unchanged(this`audioQueue, this`isPlayingAudio, this`currentAudioFile, this`player))
    {
      if Exists(path, disk) && |disk[path]| > 0 {
        QueueAudio(path);
      } else {
        log := log + [EmptyClipMessage];
        ResetUi();
      }
    }

    /**
     * `on_tts_error`: both queues and both busy flags are cleared, the
     * visualizer stopped and the controls reset; unlike `stop_speaking`,
     * the player is not stopped and the worker's pending items stay.
     */
    method OnTtsError(error: string)
      modifies this`log, this`ttsQueue, this`isGeneratingTts, this`activeWorkerRunning
      modifies this`audioQueue, this`isPlayingAudio, this`status, this`stopVisible, viz`active, viz`audioData
      ensures ttsQueue == [] && !isGeneratingTts && !activeWorkerRunning
      ensures audioQueue == [] && !isPlayingAudio && Viz() == Halted(old(Viz()))
      ensures log == old(log) + [TtsErrorMessage(error)] && status == Ready && !stopVisible
    {
      log := log + [TtsErrorMessage(error)];
      ttsQueue := [];
      isGeneratingTts := false;
      activeWorkerRunning := false;
      audioQueue := [];
      isPlayingAudio := false;
      viz.Stop();
      ResetUi();
    }

    /** `on_media_error`: the error is logged, then everything stops as in `stop_speaking`. */
    method OnMediaError(errorString: string)
      modifies this`log, this`audioQueue, this`isPlayingAudio, this`player, this`ttsQueue, this`isGeneratingTts
      modifies this`status, this`stopVisible, tts`queue, tts`tasksDone, viz`active, viz`audioData
      ensures Quiet()
      ensures log == old(log) + [MediaErrorMessage(errorString)]
      ensures player == old(player).(playing := false) && Viz() == Halted(old(Viz()))
      ensures tts.tasksDone == old(tts.tasksDone) + |old(tts.queue)|
    {
      log := log + [MediaErrorMessage(errorString)];
      StopSpeaking();
    }
  }
}
