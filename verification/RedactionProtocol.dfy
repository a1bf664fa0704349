/** Every interleaving of any number of redact runs, their crashes, and harvests
    writing the same two files (cmd/peasant/cmd_redact.go, cmd/peasant/cmd_export.go;
    internal/ingest/pipeline.go for the order a harvest installs its pair in). */
module RedactionProtocol {
  import opened Wrappers
  import opened Redaction

  type Pid = nat

  /** Where a run stands. The temporary file of a write holds `temp`. */
  datatype Proc =
    | Started(level: Level, dryRun: bool)
    | ReadMeta(level: Level, dryRun: bool, meta: Meta)
    | ReadBoth(level: Level, dryRun: bool, meta: Meta, bytes: Bytes)
    | FillingTranscript(level: Level, meta: Meta, bytes: Bytes, redacted: Bytes, temp: Bytes)
    | TranscriptReady(level: Level, meta: Meta, bytes: Bytes, temp: Bytes)
    | FillingMeta(level: Level, meta: Meta, redacted: Bytes, temp: Bytes)
    | MetaReady(level: Level, meta: Meta, redacted: Bytes, temp: Bytes)
    | Mirroring(level: Level, meta: Meta, redacted: Bytes)
    | Done(level: Level, verdict: Verdict, seen: Bytes)
    | Crashed

  /** Everything that was there first or that something else than a run installed. */
  datatype Others = Others(transcripts: set<Bytes>, metadata: set<Bytes>, artifacts: set<Artifact>)

  /** The files, the database's copy, the runs, and how often the transcript was
      installed or removed. */
  datatype World = World(
    transcript: Option<Bytes>,
    metadata: Option<Bytes>,
    mirror: Option<Artifact>,
    procs: map<Pid, Proc>,
    version: nat,
    others: Others)

  /** Bytes some redactor put out at this level under these rules. */
  ghost predicate Output(tools: Tools, rules: string, level: Level, bytes: Bytes) {
    exists raw :: tools.redact(rules, level, raw) == Some(bytes)
  }

  /** A stamp over bytes that were a redactor's output. */
  ghost predicate Genuine(tools: Tools, stamp: Stamp) {
    stamp.Stamped? ==> exists out :: Output(tools, stamp.rules, stamp.level, out) && tools.digest(out) == stamp.digest
  }

  ghost predicate GenuineText(tools: Tools, text: Bytes) {
    tools.parse(text).Some? ==> Genuine(tools, tools.parse(text).value.stamp)
  }

  // ----- steps -----

  ghost predicate Moves(w: World, w': World, p: Pid, next: Proc) {
    p in w.procs && w' == w.(procs := w.procs[p := next])
  }

  /** A run that fails drops its temporary file and changes nothing else. */
  ghost predicate Fails(w: World, w': World, p: Pid) {
    exists level, v, seen :: v !in {Skipped, WouldRedact, Redacted} && Moves(w, w', p, Done(level, v, seen))
  }

  ghost predicate ReadsMetadata(tools: Tools, w: World, w': World, p: Pid) {
    && p in w.procs && w.procs[p].Started?
    && w.metadata.Some? && tools.parse(w.metadata.value).Some?
    && Moves(w, w', p, ReadMeta(w.procs[p].level, w.procs[p].dryRun, tools.parse(w.metadata.value).value))
  }

  ghost predicate ReadsTranscript(w: World, w': World, p: Pid) {
    && p in w.procs && w.procs[p].ReadMeta?
    && w.transcript.Some?
    && Moves(w, w', p, ReadBoth(w.procs[p].level, w.procs[p].dryRun, w.procs[p].meta, w.transcript.value))
  }

  /** The decision on what was read: skip, report, or redact. */
  ghost predicate Decides(tools: Tools, w: World, w': World, p: Pid) {
    p in w.procs && w.procs[p].ReadBoth? &&
    var r := w.procs[p];
    if Skips(tools, r.level, r.meta, r.bytes) then Moves(w, w', p, Done(r.level, Skipped, r.bytes))
    else if r.dryRun then Moves(w, w', p, Done(r.level, WouldRedact, r.bytes))
    else
      var out := tools.redact(tools.rules, r.level, r.bytes);
      out.Some? && Moves(w, w', p, FillingTranscript(r.level, r.meta, r.bytes, out.value, ""))
  }

  /** Some more bytes reach the temporary file; once all have, it can be renamed. */
  ghost predicate FillsTranscript(w: World, w': World, p: Pid) {
    p in w.procs && w.procs[p].FillingTranscript? &&
    var f := w.procs[p];
    || (exists more :: f.temp + more <= f.redacted &&
          Moves(w, w', p, FillingTranscript(f.level, f.meta, f.bytes, f.redacted, f.temp + more)))
    || (f.temp == f.redacted && Moves(w, w', p, TranscriptReady(f.level, f.meta, f.bytes, f.temp)))
  }

  ghost predicate RenamesTranscript(w: World, w': World, p: Pid) {
    p in w.procs && w.procs[p].TranscriptReady? &&
    var r := w.procs[p];
    w' == w.(transcript := Some(r.temp), version := w.version + 1,
             procs := w.procs[p := FillingMeta(r.level, r.meta, r.temp, "")])
  }

  ghost predicate FillsMeta(tools: Tools, w: World, w': World, p: Pid) {
    p in w.procs && w.procs[p].FillingMeta? &&
    var f := w.procs[p];
    var text := NewText(tools, f.level, f.meta, f.redacted);
    || (exists more :: f.temp + more <= text && Moves(w, w', p, FillingMeta(f.level, f.meta, f.redacted, f.temp + more)))
    || (f.temp == text && Moves(w, w', p, MetaReady(f.level, f.meta, f.redacted, f.temp)))
  }

  ghost predicate RenamesMeta(w: World, w': World, p: Pid) {
    p in w.procs && w.procs[p].MetaReady? &&
    var r := w.procs[p];
    w' == w.(metadata := Some(r.temp), procs := w.procs[p := Mirroring(r.level, r.meta, r.redacted)])
  }

  ghost predicate Mirrors(tools: Tools, w: World, w': World, p: Pid) {
    p in w.procs && w.procs[p].Mirroring? &&
    var r := w.procs[p];
    w' == w.(mirror := Some(Artifact(NewText(tools, r.level, r.meta, r.redacted), r.redacted)),
             procs := w.procs[p := Done(r.level, Redacted, r.redacted)])
  }

  ghost predicate Crashes(w: World, w': World, p: Pid) {
    Moves(w, w', p, Crashed)
  }

  ghost predicate Starts(w: World, w': World, p: Pid) {
    p !in w.procs && exists level, dryRun :: w' == w.(procs := w.procs[p := Started(level, dryRun)])
  }

  /** A harvest installs a whole transcript; its metadata and the database's copy
      follow as steps of their own. */
  ghost predicate HarvestsTranscript(w: World, w': World, bytes: Bytes) {
    w' == w.(transcript := Some(bytes), version := w.version + 1,
             others := w.others.(transcripts := w.others.transcripts + {bytes}))
  }

  /** A harvest redacts what it writes or says that it did not. */
  ghost predicate HarvestsMetadata(tools: Tools, w: World, w': World, text: Bytes) {
    GenuineText(tools, text)
    && w' == w.(metadata := Some(text), others := w.others.(metadata := w.others.metadata + {text}))
  }

  ghost predicate HarvestsCopy(w: World, w': World, a: Artifact) {
    w' == w.(mirror := Some(a), others := w.others.(artifacts := w.others.artifacts + {a}))
  }

  /** A prune takes a file or the copy away. */
  ghost predicate Removes(w: World, w': World) {
    || w' == w.(transcript := None, version := w.version + 1)
    || w' == w.(metadata := None)
    || w' == w.(mirror := None)
  }

  ghost predicate RunStep(tools: Tools, w: World, w': World, p: Pid) {
    || Starts(w, w', p) || ReadsMetadata(tools, w, w', p) || ReadsTranscript(w, w', p) || Decides(tools, w, w', p)
    || FillsTranscript(w, w', p) || RenamesTranscript(w, w', p) || FillsMeta(tools, w, w', p)
    || RenamesMeta(w, w', p) || Mirrors(tools, w, w', p) || Fails(w, w', p) || Crashes(w, w', p)
  }

  ghost predicate OutsideStep(tools: Tools, w: World, w': World) {
    || (exists bytes :: HarvestsTranscript(w, w', bytes))
    || (exists text :: HarvestsMetadata(tools, w, w', text))
    || (exists a :: HarvestsCopy(w, w', a))
    || Removes(w, w')
  }

  ghost predicate Next(tools: Tools, w: World, w': World) {
    (exists p :: RunStep(tools, w, w', p)) || OutsideStep(tools, w, w')
  }

  /** Any files and any copy a harvest could have left, and no run yet. */
  ghost predicate Init(tools: Tools, w: World) {
    && w.procs == map[] && w.version == 0
    && w.others.transcripts == (if w.transcript.Some? then {w.transcript.value} else {})
    && w.others.metadata == (if w.metadata.Some? then {w.metadata.value} else {})
    && w.others.artifacts == (if w.mirror.Some? then {w.mirror.value} else {})
    && (w.metadata.Some? ==> GenuineText(tools, w.metadata.value))
  }

  ghost predicate IsRun(tools: Tools, run: seq<World>) {
    && run != [] && Init(tools, run[0])
    && forall i :: 0 <= i < |run| - 1 ==> Next(tools, run[i], run[i + 1])
  }

  /** The digest and the metadata format do what they are for. */
  ghost predicate Sane(tools: Tools) {
    Injective(tools.digest) && Marshals(tools)
  }

  // ----- what every step keeps -----

  /** A whole transcript: somebody else's, or a redactor's output. */
  ghost predicate WholeTranscript(tools: Tools, w: World, bytes: Bytes) {
    bytes in w.others.transcripts || exists level :: Output(tools, tools.rules, level, bytes)
  }

  /** A pair one run wrote: a redactor's output and the metadata about it. */
  ghost predicate RunPair(tools: Tools, level: Level, meta: Meta, bytes: Bytes, text: Bytes) {
    Output(tools, tools.rules, level, bytes) && text == NewText(tools, level, meta, bytes)
  }

  /** A whole metadata file: somebody else's, or all that a run had to write. */
  ghost predicate WholeMetadata(tools: Tools, w: World, text: Bytes) {
    text in w.others.metadata || exists level, meta, bytes :: RunPair(tools, level, meta, bytes, text)
  }

  /** A whole copy: somebody else's, or the pair of one run. */
  ghost predicate WholeCopy(tools: Tools, w: World, a: Artifact) {
    a in w.others.artifacts || exists level, meta :: RunPair(tools, level, meta, a.transcript, a.metadata)
  }

  ghost predicate ProcOk(tools: Tools, q: Proc) {
    match q
    case Started(_, _) => true
    case ReadMeta(_, _, meta) => Genuine(tools, meta.stamp)
    case ReadBoth(_, _, meta, bytes) => Genuine(tools, meta.stamp)
    case FillingTranscript(level, _, bytes, redacted, temp) =>
      tools.redact(tools.rules, level, bytes) == Some(redacted) && temp <= redacted
    case TranscriptReady(level, _, bytes, temp) => tools.redact(tools.rules, level, bytes) == Some(temp)
    case FillingMeta(level, meta, redacted, temp) =>
      Output(tools, tools.rules, level, redacted) && temp <= NewText(tools, level, meta, redacted)
    case MetaReady(level, meta, redacted, temp) => RunPair(tools, level, meta, redacted, temp)
    case Mirroring(level, meta, redacted) => Output(tools, tools.rules, level, redacted)
    case Done(level, verdict, seen) =>
      verdict in {Skipped, Redacted} ==> Output(tools, tools.rules, level, seen)
    case Crashed => true
  }

  ghost predicate FilesOk(tools: Tools, w: World) {
    && (w.transcript.Some? ==> WholeTranscript(tools, w, w.transcript.value))
    && (w.metadata.Some? ==> WholeMetadata(tools, w, w.metadata.value))
    && (w.mirror.Some? ==> WholeCopy(tools, w, w.mirror.value))
    && (forall text :: text in w.others.metadata ==> GenuineText(tools, text))
  }

  ghost predicate Inv(tools: Tools, w: World) {
    FilesOk(tools, w) && forall p :: p in w.procs ==> ProcOk(tools, w.procs[p])
  }

  /** Whatever metadata is there, its stamp is genuine. */
  lemma MetadataGenuine(tools: Tools, w: World)
    requires Marshals(tools) && FilesOk(tools, w) && w.metadata.Some?
    ensures GenuineText(tools, w.metadata.value)
  {
    var text := w.metadata.value;
    if text !in w.others.metadata {
      var level, meta, bytes :| RunPair(tools, level, meta, bytes, text);
      assert tools.parse(text) == Some(NewMeta(tools, level, meta, bytes));
    }
  }

  /** A run that skips read a redactor's output, whoever wrote the two files. */
  lemma SkipIsSound(tools: Tools, level: Level, meta: Meta, bytes: Bytes)
    requires Injective(tools.digest) && Genuine(tools, meta.stamp) && Skips(tools, level, meta, bytes)
    ensures Output(tools, tools.rules, level, bytes)
  {
    var out :| Output(tools, meta.stamp.rules, meta.stamp.level, out) && tools.digest(out) == meta.stamp.digest;
    assert out == bytes;
  }

  lemma MoveKeeps(tools: Tools, w: World, w': World, p: Pid, next: Proc)
    requires Inv(tools, w) && Moves(w, w', p, next) && ProcOk(tools, next)
    ensures Inv(tools, w')
  {
  }

  /** A step that changes the files, and one run's state at most. */
  lemma FileStepKeeps(tools: Tools, w: World, w': World)
    requires Inv(tools, w) && FilesOk(tools, w')
    requires forall q :: q in w'.procs ==> (q in w.procs && w'.procs[q] == w.procs[q]) || ProcOk(tools, w'.procs[q])
    ensures Inv(tools, w')
  {
  }

  lemma DecisionKeeps(tools: Tools, w: World, w': World, p: Pid)
    requires Sane(tools) && Inv(tools, w) && Decides(tools, w, w', p)
    ensures Inv(tools, w')
  {
    hide FilesOk;
    var r := w.procs[p];
    assert ProcOk(tools, r);
    if Skips(tools, r.level, r.meta, r.bytes) {
      SkipIsSound(tools, r.level, r.meta, r.bytes);
      MoveKeeps(tools, w, w', p, Done(r.level, Skipped, r.bytes));
    } else if r.dryRun {
      MoveKeeps(tools, w, w', p, Done(r.level, WouldRedact, r.bytes));
    } else {
      var out := tools.redact(tools.rules, r.level, r.bytes);
      MoveKeeps(tools, w, w', p, FillingTranscript(r.level, r.meta, r.bytes, out.value, ""));
    }
  }

  lemma ReadKeeps(tools: Tools, w: World, w': World, p: Pid)
    requires Sane(tools) && Inv(tools, w) && (ReadsMetadata(tools, w, w', p) || ReadsTranscript(w, w', p))
    ensures Inv(tools, w')
  {
    assert ProcOk(tools, w.procs[p]);
    if ReadsMetadata(tools, w, w', p) {
      MetadataGenuine(tools, w);
    }
    hide FilesOk;
    MoveKeeps(tools, w, w', p, w'.procs[p]);
  }

  lemma FillKeeps(tools: Tools, w: World, w': World, p: Pid)
    requires Inv(tools, w) && (FillsTranscript(w, w', p) || FillsMeta(tools, w, w', p))
    ensures Inv(tools, w')
  {
    hide FilesOk;
    assert ProcOk(tools, w.procs[p]);
    MoveKeeps(tools, w, w', p, w'.procs[p]);
  }

  lemma RenameTranscriptKeeps(tools: Tools, w: World, w': World, p: Pid)
    requires Inv(tools, w) && RenamesTranscript(w, w', p)
    ensures Inv(tools, w')
  {
    var r := w.procs[p];
    assert ProcOk(tools, r);
    assert Output(tools, tools.rules, r.level, r.temp);
    FileStepKeeps(tools, w, w');
  }

  lemma RenameMetaKeeps(tools: Tools, w: World, w': World, p: Pid)
    requires Inv(tools, w) && RenamesMeta(w, w', p)
    ensures Inv(tools, w')
  {
    var r := w.procs[p];
    assert ProcOk(tools, r);
    assert RunPair(tools, r.level, r.meta, r.redacted, r.temp);
    FileStepKeeps(tools, w, w');
  }

  lemma MirrorKeeps(tools: Tools, w: World, w': World, p: Pid)
    requires Inv(tools, w) && Mirrors(tools, w, w', p)
    ensures Inv(tools, w')
  {
    var r := w.procs[p];
    assert ProcOk(tools, r);
    assert RunPair(tools, r.level, r.meta, r.redacted, NewText(tools, r.level, r.meta, r.redacted));
    FileStepKeeps(tools, w, w');
  }

  lemma RunStepKeeps(tools: Tools, w: World, w': World, p: Pid)
    requires Sane(tools) && Inv(tools, w) && RunStep(tools, w, w', p)
    ensures Inv(tools, w')
  {
    hide FilesOk, ProcOk, Decides, FillsTranscript, FillsMeta;
    if Decides(tools, w, w', p) {
      DecisionKeeps(tools, w, w', p);
    } else if ReadsMetadata(tools, w, w', p) || ReadsTranscript(w, w', p) {
      ReadKeeps(tools, w, w', p);
    } else if FillsTranscript(w, w', p) || FillsMeta(tools, w, w', p) {
      FillKeeps(tools, w, w', p);
    } else if RenamesTranscript(w, w', p) {
      RenameTranscriptKeeps(tools, w, w', p);
    } else if RenamesMeta(w, w', p) {
      RenameMetaKeeps(tools, w, w', p);
    } else if Mirrors(tools, w, w', p) {
      MirrorKeeps(tools, w, w', p);
    } else {
      StartOrEndKeeps(tools, w, w', p);
    }
  }

  lemma StartOrEndKeeps(tools: Tools, w: World, w': World, p: Pid)
    requires Inv(tools, w) && (Starts(w, w', p) || Fails(w, w', p) || Crashes(w, w', p))
    ensures Inv(tools, w')
  {
    FileStepKeeps(tools, w, w');
  }

  lemma OutsideKeeps(tools: Tools, w: World, w': World)
    requires Inv(tools, w) && OutsideStep(tools, w, w')
    ensures Inv(tools, w')
  {
    assert FilesOk(tools, w');
    hide FilesOk;
    FileStepKeeps(tools, w, w');
  }

  lemma InitKeeps(tools: Tools, w: World)
    requires Init(tools, w)
    ensures Inv(tools, w)
  {
  }

  lemma {:induction false} RunKeepsInv(tools: Tools, run: seq<World>, i: nat)
    requires Sane(tools) && IsRun(tools, run) && i < |run|
    ensures Inv(tools, run[i])
  {
    hide Inv, Init, RunStep, OutsideStep;
    if i == 0 {
      InitKeeps(tools, run[0]);
    } else {
      RunKeepsInv(tools, run, i - 1);
      var w, w' := run[i - 1], run[i];
      assert Next(tools, run[i - 1], run[i - 1 + 1]);
      if p :| RunStep(tools, w, w', p) {
        RunStepKeeps(tools, w, w', p);
      } else {
        OutsideKeeps(tools, w, w');
      }
    }
  }

  // ----- main results -----

  /** Over every interleaving, a session reported as already current was read as
      the output of the redactor at that level under the current rules. */
  lemma SkippedMeansRedacted(tools: Tools, run: seq<World>, i: nat, p: Pid, level: Level, seen: Bytes)
    requires Sane(tools) && IsRun(tools, run) && i < |run|
    requires p in run[i].procs && run[i].procs[p] == Done(level, Skipped, seen)
    ensures Output(tools, tools.rules, level, seen)
  {
    RunKeepsInv(tools, run, i);
    assert ProcOk(tools, run[i].procs[p]);
  }

  /** At every point, whoever crashed where and however much of a temporary file
      was written: each file is one whole content that somebody had to write,
      and the database holds one whole pair. */
  lemma FilesStayWhole(tools: Tools, run: seq<World>, i: nat)
    requires Sane(tools) && IsRun(tools, run) && i < |run|
    ensures run[i].transcript.Some? ==> WholeTranscript(tools, run[i], run[i].transcript.value)
    ensures run[i].metadata.Some? ==> WholeMetadata(tools, run[i], run[i].metadata.value)
    ensures run[i].mirror.Some? ==> WholeCopy(tools, run[i], run[i].mirror.value)
  {
    RunKeepsInv(tools, run, i);
  }

  /** Redacted metadata: its text is the redactor's at the stamped level, and its
      hash and its stamp are of bytes the redactor put out at that level. */
  ghost predicate RedactedText(tools: Tools, text: Bytes) {
    exists level, body, out ::
      && Output(tools, tools.rules, level, out)
      && tools.parse(text)
         == Some(Meta(tools.redactBody(level, body), tools.digest(out), Stamped(level, tools.rules, tools.digest(out))))
  }

  lemma RunPairIsRedacted(tools: Tools, level: Level, meta: Meta, bytes: Bytes, text: Bytes)
    requires Marshals(tools) && RunPair(tools, level, meta, bytes, text)
    ensures RedactedText(tools, text)
  {
    assert tools.parse(text)
        == Some(Meta(tools.redactBody(level, meta.body), tools.digest(bytes), Stamped(level, tools.rules, tools.digest(bytes))));
  }

  /** At every point, metadata that no harvest wrote is redacted, on disk and in the
      database, and so is the transcript beside it there. */
  lemma WrittenMetadataIsRedacted(tools: Tools, run: seq<World>, i: nat)
    requires Sane(tools) && IsRun(tools, run) && i < |run|
    ensures run[i].metadata.Some? && run[i].metadata.value !in run[i].others.metadata ==>
              RedactedText(tools, run[i].metadata.value)
    ensures run[i].mirror.Some? && run[i].mirror.value !in run[i].others.artifacts ==>
              RedactedText(tools, run[i].mirror.value.metadata)
              && exists level :: Output(tools, tools.rules, level, run[i].mirror.value.transcript)
  {
    hide RunPair, RedactedText, IsRun;
    RunKeepsInv(tools, run, i);
    var w := run[i];
    if w.metadata.Some? && w.metadata.value !in w.others.metadata {
      var level, meta, bytes :| RunPair(tools, level, meta, bytes, w.metadata.value);
      RunPairIsRedacted(tools, level, meta, bytes, w.metadata.value);
    }
    if w.mirror.Some? && w.mirror.value !in w.others.artifacts {
      var level, meta :| RunPair(tools, level, meta, w.mirror.value.transcript, w.mirror.value.metadata);
      RunPairIsRedacted(tools, level, meta, w.mirror.value.transcript, w.mirror.value.metadata);
      RunPairOutput(tools, level, meta, w.mirror.value.transcript, w.mirror.value.metadata);
    }
  }

  lemma RunPairOutput(tools: Tools, level: Level, meta: Meta, bytes: Bytes, text: Bytes)
    requires RunPair(tools, level, meta, bytes, text)
    ensures Output(tools, tools.rules, level, bytes)
  {
  }

  /** A run's own step leaves a file as it was, or holding all of the new content:
      of the transcript it read, or of the metadata about it. */
  ghost predicate OldOrNew(tools: Tools, w: World, w': World, p: Pid) {
    && (w'.transcript == w.transcript
        || (p in w.procs && w.procs[p].TranscriptReady? && w'.transcript.Some?
            && w'.transcript == tools.redact(tools.rules, w.procs[p].level, w.procs[p].bytes)))
    && (w'.metadata == w.metadata
        || (p in w.procs && w.procs[p].MetaReady?
            && w'.metadata == Some(NewText(tools, w.procs[p].level, w.procs[p].meta, w.procs[p].redacted))))
  }

  lemma StepIsOldOrNew(tools: Tools, run: seq<World>, i: nat, w': World, p: Pid)
    requires Sane(tools) && IsRun(tools, run) && i < |run| && RunStep(tools, run[i], w', p)
    ensures OldOrNew(tools, run[i], w', p)
  {
    hide IsRun, FilesOk, Skips, NewText;
    RunKeepsInv(tools, run, i);
    if p in run[i].procs {
      assert ProcOk(tools, run[i].procs[p]);
    }
  }

  // ----- what a rename replaces -----

  /** The transcript is installed or removed between `k` and `k + 1`. */
  ghost predicate TranscriptStep(run: seq<World>, k: nat)
    requires k + 1 < |run|
  {
    run[k + 1].version != run[k].version
  }

  /** `k` is the last such step before `j`. */
  ghost predicate LastTranscriptStep(run: seq<World>, k: nat, j: nat)
    requires k < j < |run|
  {
    TranscriptStep(run, k) && forall m :: k < m < j ==> !TranscriptStep(run, m)
  }

  lemma StepOfTranscript(tools: Tools, w: World, w': World)
    requires Next(tools, w, w')
    ensures w'.version == w.version ==> w'.transcript == w.transcript
  {
    hide Skips, NewText, GenuineText;
  }

  lemma {:induction false} Undisturbed(tools: Tools, run: seq<World>, i: nat, j: nat)
    requires IsRun(tools, run) && i <= j < |run| && forall k :: i <= k < j ==> !TranscriptStep(run, k)
    ensures run[j].transcript == run[i].transcript
    decreases j - i
  {
    hide Next, Init;
    if i < j {
      Undisturbed(tools, run, i, j - 1);
      assert !TranscriptStep(run, j - 1);
      assert Next(tools, run[j - 1], run[j - 1 + 1]);
      StepOfTranscript(tools, run[j - 1], run[j]);
    }
  }

  lemma {:induction false} FindLastStep(run: seq<World>, i: nat, j: nat) returns (k: nat)
    requires i < j < |run| && exists m :: i <= m < j && TranscriptStep(run, m)
    ensures i <= k < j && LastTranscriptStep(run, k, j)
    decreases j - i
  {
    if TranscriptStep(run, j - 1) {
      k := j - 1;
    } else {
      k := FindLastStep(run, i, j - 1);
    }
  }

  /** A run past its read, which found these bytes. */
  ghost predicate HasRead(q: Proc, bytes: Bytes) {
    && !q.Started? && !q.ReadMeta?
    && (q.ReadBoth? || q.FillingTranscript? || q.TranscriptReady? ==> q.bytes == bytes)
  }

  lemma OwnStepKeepsRead(tools: Tools, w: World, w': World, p: Pid, bytes: Bytes)
    requires RunStep(tools, w, w', p) && p in w.procs && HasRead(w.procs[p], bytes)
    ensures p in w'.procs && HasRead(w'.procs[p], bytes)
  {
    hide Skips, NewText;
  }

  lemma OthersUnmoved(tools: Tools, w: World, w': World, p: Pid, q: Pid)
    requires RunStep(tools, w, w', q) && p in w.procs && p != q
    ensures p in w'.procs && w'.procs[p] == w.procs[p]
  {
    hide Skips, NewText;
  }

  lemma StepKeepsRead(tools: Tools, w: World, w': World, p: Pid, bytes: Bytes)
    requires Next(tools, w, w') && p in w.procs && HasRead(w.procs[p], bytes)
    ensures p in w'.procs && HasRead(w'.procs[p], bytes)
  {
    hide RunStep, HasRead;
    if q :| RunStep(tools, w, w', q) {
      if q == p {
        OwnStepKeepsRead(tools, w, w', p, bytes);
      } else {
        OthersUnmoved(tools, w, w', p, q);
      }
    }
  }

  lemma {:induction false} KeepsRead(tools: Tools, run: seq<World>, i: nat, j: nat, p: Pid, bytes: Bytes)
    requires IsRun(tools, run) && i <= j < |run| && p in run[i].procs && HasRead(run[i].procs[p], bytes)
    ensures p in run[j].procs && HasRead(run[j].procs[p], bytes)
    decreases j - i
  {
    hide Next, Init, HasRead;
    if i < j {
      KeepsRead(tools, run, i, j - 1, p, bytes);
      assert Next(tools, run[j - 1], run[j - 1 + 1]);
      StepKeepsRead(tools, run[j - 1], run[j], p, bytes);
    }
  }

  /** The one step of a run that replaces the transcript replaces what that run
      read exactly when nobody touched the transcript since, or the last to do so
      left the same bytes. Either way it installs the redaction of what was read. */
  lemma RenameReplacesReadIff(tools: Tools, run: seq<World>, i: nat, j: nat, p: Pid)
    requires Sane(tools) && IsRun(tools, run) && i < j < |run|
    requires ReadsTranscript(run[i], run[i + 1], p)
    requires p in run[j].procs && run[j].procs[p].TranscriptReady?
    ensures var r, read := run[j].procs[p], run[i].transcript;
      && tools.redact(tools.rules, r.level, read.value) == Some(r.temp)
      && (run[j].transcript == read <==>
            || (forall k :: i < k < j ==> !TranscriptStep(run, k))
            || (exists k :: i < k < j && LastTranscriptStep(run, k, j) && run[k + 1].transcript == read))
  {
    hide Inv, IsRun;
    var read := run[i].transcript;
    RunKeepsInv(tools, run, j);
    ReadyRedacts(tools, run[j], p);
    KeepsRead(tools, run, i + 1, j, p, read.value);
    if forall k :: i < k < j ==> !TranscriptStep(run, k) {
      Undisturbed(tools, run, i + 1, j);
    } else {
      var k := FindLastStep(run, i + 1, j);
      Undisturbed(tools, run, k + 1, j);
      if m :| i < m < j && LastTranscriptStep(run, m, j) && run[m + 1].transcript == read {
        Undisturbed(tools, run, m + 1, j);
      }
    }
  }

  lemma ReadyRedacts(tools: Tools, w: World, p: Pid)
    requires Inv(tools, w) && p in w.procs && w.procs[p].TranscriptReady?
    ensures tools.redact(tools.rules, w.procs[p].level, w.procs[p].bytes) == Some(w.procs[p].temp)
  {
    assert ProcOk(tools, w.procs[p]);
  }

  // ----- runs of one process -----

  ghost predicate OwnSteps(tools: Tools, run: seq<World>, p: Pid) {
    run != [] && forall i :: 0 <= i < |run| - 1 ==> RunStep(tools, run[i], run[i + 1], p)
  }

  lemma OneMore(tools: Tools, run: seq<World>, p: Pid, w': World)
    requires OwnSteps(tools, run, p) && RunStep(tools, run[|run| - 1], w', p)
    ensures OwnSteps(tools, run + [w'], p)
  {
    hide RunStep;
    var longer := run + [w'];
    forall i | 0 <= i < |longer| - 1
      ensures RunStep(tools, longer[i], longer[i + 1], p)
    {
      if i < |run| - 1 {
        assert longer[i] == run[i] && longer[i + 1] == run[i + 1];
      }
    }
  }

  ghost predicate SomeoneReads(w: World, w': World) {
    exists q :: ReadsTranscript(w, w', q)
  }

  /** Nobody reads the transcript. */
  ghost predicate Unread(run: seq<World>) {
    forall k :: 0 <= k < |run| - 1 ==> !SomeoneReads(run[k], run[k + 1])
  }

  // ----- a harvest between a read and the rename -----

  /** Past its read and on its way to replacing the transcript. */
  ghost predicate WillReplace(tools: Tools, q: Proc) {
    || q.TranscriptReady?
    || (q.FillingTranscript? && q.temp <= q.redacted)
    || (q.ReadBoth? && !q.dryRun && !Skips(tools, q.level, q.meta, q.bytes)
        && tools.redact(tools.rules, q.level, q.bytes).Some?)
  }

  /** What it will install. */
  function Pending(tools: Tools, q: Proc): Bytes
    requires WillReplace(tools, q)
  {
    if q.TranscriptReady? then q.temp
    else if q.FillingTranscript? then q.redacted
    else tools.redact(tools.rules, q.level, q.bytes).value
  }

  /** `run` ends with the rename, nobody having read the transcript on the way. */
  ghost predicate Replaces(tools: Tools, run: seq<World>, p: Pid, q: Proc)
    requires WillReplace(tools, q)
  {
    && |run| > 1 && OwnSteps(tools, run, p) && Unread(run)
    && run[|run| - 1] == run[0].(transcript := Some(Pending(tools, q)), version := run[0].version + 1,
                                 procs := run[0].procs[p := FillingMeta(q.level, q.meta, Pending(tools, q), "")])
  }

  lemma FromReady(tools: Tools, w: World, p: Pid) returns (run: seq<World>)
    requires p in w.procs && w.procs[p].TranscriptReady?
    ensures run != [] && run[0] == w && Replaces(tools, run, p, w.procs[p])
  {
    var r := w.procs[p];
    var w' := w.(transcript := Some(r.temp), version := w.version + 1,
                 procs := w.procs[p := FillingMeta(r.level, r.meta, r.temp, "")]);
    assert RenamesTranscript(w, w', p);
    OneMore(tools, [w], p, w');
    run := [w] + [w'];
    assert run[|run| - 1] == w';
  }

  /** One step in front, which reads nothing and changes nothing but the run's own state. */
  lemma StepBefore(tools: Tools, w: World, w1: World, p: Pid, rest: seq<World>)
    requires p in w.procs && p in w1.procs && w1 == w.(procs := w.procs[p := w1.procs[p]])
    requires WillReplace(tools, w.procs[p]) && WillReplace(tools, w1.procs[p])
    requires !w1.procs[p].ReadBoth? && RunStep(tools, w, w1, p)
    requires rest != [] && rest[0] == w1 && Replaces(tools, rest, p, w1.procs[p])
    requires var q, q1 := w.procs[p], w1.procs[p];
      q1.level == q.level && q1.meta == q.meta && Pending(tools, q1) == Pending(tools, q)
    ensures Replaces(tools, [w] + rest, p, w.procs[p])
  {
    var run := [w] + rest;
    forall q
      ensures !ReadsTranscript(w, w1, q)
    {
      assert q in w1.procs && q != p ==> w1.procs[q] == w.procs[q];
    }
    assert !SomeoneReads(w, w1);
    hide RunStep, SomeoneReads;
    forall k | 0 <= k < |run| - 1
      ensures RunStep(tools, run[k], run[k + 1], p) && !SomeoneReads(run[k], run[k + 1])
    {
      if k > 0 {
        assert run[k] == rest[k - 1] && run[k + 1] == rest[k - 1 + 1];
      }
    }
    assert w1.procs[p := FillingMeta(w.procs[p].level, w.procs[p].meta, Pending(tools, w.procs[p]), "")]
        == w.procs[p := FillingMeta(w.procs[p].level, w.procs[p].meta, Pending(tools, w.procs[p]), "")];
  }

  lemma FromFilling(tools: Tools, w: World, p: Pid) returns (run: seq<World>)
    requires p in w.procs && w.procs[p].FillingTranscript? && w.procs[p].temp <= w.procs[p].redacted
    ensures run != [] && run[0] == w && Replaces(tools, run, p, w.procs[p])
  {
    var f := w.procs[p];
    var more := f.redacted[|f.temp|..];
    assert f.temp + more == f.redacted;
    var w1 := w.(procs := w.procs[p := FillingTranscript(f.level, f.meta, f.bytes, f.redacted, f.temp + more)]);
    var w2 := w1.(procs := w1.procs[p := TranscriptReady(f.level, f.meta, f.bytes, f.redacted)]);
    assert FillsTranscript(w, w1, p) && FillsTranscript(w1, w2, p);
    run := FromReady(tools, w2, p);
    hide RunStep, Replaces;
    assert RunStep(tools, w, w1, p) && RunStep(tools, w1, w2, p) by {
      StepsFill(tools, w, w1, p);
      StepsFill(tools, w1, w2, p);
    }
    StepBefore(tools, w1, w2, p, run);
    run := [w1] + run;
    StepBefore(tools, w, w1, p, run);
    run := [w] + run;
  }

  lemma StepsFill(tools: Tools, w: World, w': World, p: Pid)
    requires FillsTranscript(w, w', p)
    ensures RunStep(tools, w, w', p)
  {
  }

  lemma FromRead(tools: Tools, w: World, p: Pid) returns (run: seq<World>)
    requires p in w.procs && WillReplace(tools, w.procs[p])
    ensures run != [] && run[0] == w && Replaces(tools, run, p, w.procs[p])
  {
    var q := w.procs[p];
    if q.TranscriptReady? {
      run := FromReady(tools, w, p);
    } else if q.FillingTranscript? {
      run := FromFilling(tools, w, p);
    } else {
      var w1 := w.(procs := w.procs[p := FillingTranscript(q.level, q.meta, q.bytes, Pending(tools, q), "")]);
      assert Decides(tools, w, w1, p);
      run := FromFilling(tools, w1, p);
      StepBefore(tools, w, w1, p, run);
      run := [w] + run;
    }
  }

  /** From any point between a read and its rename a harvest can land and be
      replaced: its bytes are gone from the transcript, unredacted and never read. */
  lemma HarvestInBetweenIsReplaced(tools: Tools, w: World, p: Pid, bytes: Bytes) returns (run: seq<World>)
    requires p in w.procs && WillReplace(tools, w.procs[p])
    ensures |run| > 2 && run[0] == w
    ensures HarvestsTranscript(run[0], run[1], bytes) && OwnSteps(tools, run[1..], p) && Unread(run)
    ensures var end := run[|run| - 1];
      && end.transcript == Some(Pending(tools, w.procs[p])) && bytes in end.others.transcripts
      && end.metadata == w.metadata && end.mirror == w.mirror
  {
    var w1 := w.(transcript := Some(bytes), version := w.version + 1,
                 others := w.others.(transcripts := w.others.transcripts + {bytes}));
    var rest := FromRead(tools, w1, p);
    run := [w] + rest;
    assert run[1..] == rest;
    assert !SomeoneReads(w, w1);
    hide SomeoneReads;
    forall k | 0 <= k < |run| - 1
      ensures !SomeoneReads(run[k], run[k + 1])
    {
      if k > 0 {
        assert run[k] == rest[k - 1] && run[k + 1] == rest[k - 1 + 1];
      }
    }
  }

  // ----- a run by itself is one of the interleavings -----

  function FilesOf(w: World): Files {
    Files(w.transcript, w.metadata, w.mirror)
  }

  /** The steps up to the decision. */
  lemma ReadsAlone(tools: Tools, w: World, p: Pid, level: Level, dryRun: bool, meta: Meta) returns (run: seq<World>)
    requires p !in w.procs && w.transcript.Some? && w.metadata.Some? && tools.parse(w.metadata.value) == Some(meta)
    ensures OwnSteps(tools, run, p) && run[0] == w
    ensures run[|run| - 1] == w.(procs := w.procs[p := ReadBoth(level, dryRun, meta, w.transcript.value)])
  {
    var w1 := w.(procs := w.procs[p := Started(level, dryRun)]);
    var w2 := w.(procs := w.procs[p := ReadMeta(level, dryRun, meta)]);
    var w3 := w.(procs := w.procs[p := ReadBoth(level, dryRun, meta, w.transcript.value)]);
    assert w2.procs == w1.procs[p := w2.procs[p]] && w3.procs == w2.procs[p := w3.procs[p]];
    assert Starts(w, w1, p) && ReadsMetadata(tools, w1, w2, p) && ReadsTranscript(w2, w3, p);
    run := [w];
    OneMore(tools, run, p, w1);
    OneMore(tools, [w] + [w1], p, w2);
    OneMore(tools, [w] + [w1] + [w2], p, w3);
    run := [w] + [w1] + [w2] + [w3];
  }

  /** The steps from the rename of the transcript to the end. */
  lemma FinishesAlone(tools: Tools, w: World, p: Pid) returns (run: seq<World>)
    requires p in w.procs && w.procs[p].FillingMeta? && w.procs[p].temp == ""
    ensures OwnSteps(tools, run, p) && run[0] == w
    ensures var r, end := w.procs[p], run[|run| - 1];
      var text := NewText(tools, r.level, r.meta, r.redacted);
      && FilesOf(end) == Files(w.transcript, Some(text), Some(Artifact(text, r.redacted)))
      && end.procs == w.procs[p := Done(r.level, Redacted, r.redacted)]
  {
    var r := w.procs[p];
    var text := NewText(tools, r.level, r.meta, r.redacted);
    var w1 := w.(procs := w.procs[p := FillingMeta(r.level, r.meta, r.redacted, r.temp + text)]);
    var w2 := w.(procs := w.procs[p := MetaReady(r.level, r.meta, r.redacted, text)]);
    var w3 := w.(metadata := Some(text), procs := w.procs[p := Mirroring(r.level, r.meta, r.redacted)]);
    var w4 := w3.(mirror := Some(Artifact(text, r.redacted)), procs := w.procs[p := Done(r.level, Redacted, r.redacted)]);
    assert "" + text == text;
    assert FillsMeta(tools, w, w1, p) && FillsMeta(tools, w1, w2, p) && RenamesMeta(w2, w3, p) && Mirrors(tools, w3, w4, p);
    run := [w] + [w1];
    OneMore(tools, [w], p, w1);
    OneMore(tools, run, p, w2);
    run := run + [w2];
    OneMore(tools, run, p, w3);
    run := run + [w3];
    OneMore(tools, run, p, w4);
    run := run + [w4];
  }

  lemma {:induction false} Joined(tools: Tools, a: seq<World>, b: seq<World>, p: Pid)
    requires OwnSteps(tools, a, p) && OwnSteps(tools, b, p) && a[|a| - 1] == b[0]
    ensures OwnSteps(tools, a + b[1..], p)
    ensures (a + b[1..])[|a + b[1..]| - 1] == b[|b| - 1]
  {
    hide RunStep;
    var joined := a + b[1..];
    forall i | 0 <= i < |joined| - 1
      ensures RunStep(tools, joined[i], joined[i + 1], p)
    {
      if i < |a| - 1 {
        assert joined[i] == a[i] && joined[i + 1] == a[i + 1];
      } else {
        var j := i - (|a| - 1);
        assert joined[i] == b[j] && joined[i + 1] == b[j + 1];
      }
    }
  }

  /** The uninterrupted run is one of the interleavings: the same files, the same verdict. */
  lemma SoloIsInterleaving(tools: Tools, w: World, p: Pid, level: Level, dryRun: bool) returns (run: seq<World>)
    requires p !in w.procs
    requires Solo(tools, level, dryRun, NO_FAULTS, FilesOf(w)).1 in {Skipped, WouldRedact, Redacted}
    ensures OwnSteps(tools, run, p) && run[0] == w
    ensures var end := run[|run| - 1];
      && p in end.procs && end.procs[p].Done?
      && (FilesOf(end), end.procs[p].verdict) == Solo(tools, level, dryRun, NO_FAULTS, FilesOf(w))
  {
    var meta := tools.parse(w.metadata.value).value;
    var read := ReadsAlone(tools, w, p, level, dryRun, meta);
    var w3 := read[|read| - 1];
    var r := w3.procs[p];
    if Skips(tools, level, r.meta, r.bytes) || dryRun {
      var verdict := if Skips(tools, level, r.meta, r.bytes) then Skipped else WouldRedact;
      var w4 := w3.(procs := w3.procs[p := Done(level, verdict, r.bytes)]);
      assert Decides(tools, w3, w4, p);
      OneMore(tools, read, p, w4);
      run := read + [w4];
    } else {
      var wrote := FromRead(tools, w3, p);
      var finished := FinishesAlone(tools, wrote[|wrote| - 1], p);
      Joined(tools, read, wrote, p);
      Joined(tools, read + wrote[1..], finished, p);
      run := read + wrote[1..] + finished[1..];
    }
  }
}
