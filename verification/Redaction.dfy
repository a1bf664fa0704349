/** Redacting one stored session: two files replaced one after the other and a
    database mirror, with crashes, other redactors and harvests in between
    (cmd/peasant/cmd_redact.go, cmd/peasant/cmd_export.go). */
module Redaction {
  import opened Wrappers

  type Bytes = string
  type Level = string
  type Digest = string

  /** What the metadata says about redaction. */
  datatype Stamp = Unstamped | Stamped(level: Level, rules: string, digest: Digest)

  datatype Meta = Meta(body: string, contentHash: Digest, stamp: Stamp)

  datatype Verdict =
    | Skipped | WouldRedact | Redacted | NotIngested | NotFound
    | BadMetadata | NoTranscript | RedactorFailed | WriteTranscriptFailed | WriteMetadataFailed | MirrorFailed

  /** The redactor of every rule set and level, what it makes of metadata text,
      how metadata is read from and written to its file, the digest, and the rule
      set this program carries. */
  datatype Tools = Tools(
    redact: (string, Level, Bytes) -> Option<Bytes>,
    parse: Bytes -> Option<Meta>,
    marshal: Meta -> Bytes,
    redactBody: (Level, string) -> string,
    digest: Bytes -> Digest,
    rules: string)

  ghost predicate Injective(digest: Bytes -> Digest) {
    forall a, b :: digest(a) == digest(b) ==> a == b
  }

  /** Metadata that was written is read back. */
  ghost predicate Marshals(tools: Tools) {
    forall meta :: tools.parse(tools.marshal(meta)) == Some(meta)
  }

  /** The stamp vouches for these bytes under the current rules. */
  predicate IsCurrent(tools: Tools, stamp: Stamp, digest: Digest) {
    stamp.Stamped? && stamp.digest == digest && stamp.rules == tools.rules
  }

  predicate Skips(tools: Tools, level: Level, meta: Meta, bytes: Bytes) {
    IsCurrent(tools, meta.stamp, tools.digest(bytes)) && meta.stamp.level == level
  }

  /** The metadata written beside redacted bytes. */
  function NewMeta(tools: Tools, level: Level, meta: Meta, redacted: Bytes): Meta {
    Meta(tools.redactBody(level, meta.body), tools.digest(redacted),
         Stamped(level, tools.rules, tools.digest(redacted)))
  }

  function NewText(tools: Tools, level: Level, meta: Meta, redacted: Bytes): Bytes {
    tools.marshal(NewMeta(tools, level, meta, redacted))
  }

  // ----- replacing one file -----

  datatype WriteStep = CreateTemp | WriteTemp(written: nat) | Sync | Close | Chmod | Rename

  /** A directory entry and the temporary file beside it. */
  class Slot {
    var target: Option<Bytes>
    var temp: Option<Bytes>

    constructor (target: Option<Bytes>)
      ensures this.target == target && temp == None
    {
      this.target, this.temp := target, None;
    }

    /** The new content or the old one, never a part; no temporary file stays.
        `failing` is the step that fails, if one does. */
    method WriteAtomic(data: Bytes, failing: Option<WriteStep>) returns (ok: bool)
      requires temp == None
      modifies this
      ensures ok <==> failing.None?
      ensures target == if ok then Some(data) else old(target)
      ensures temp == None
    {
      if failing == Some(CreateTemp) {
        return false;
      }
      if failing.Some? && failing.value.WriteTemp? {
        temp := Some(if failing.value.written <= |data| then data[..failing.value.written] else data);
        temp := None;
        return false;
      }
      temp := Some(data);
      if failing.Some? {
        temp := None;
        return false;
      }
      target := temp;
      temp := None;
      return true;
    }
  }

  // ----- one run by itself -----

  /** A pair as the database copies it. */
  datatype Artifact = Artifact(metadata: Bytes, transcript: Bytes)

  datatype Files = Files(transcript: Option<Bytes>, metadata: Option<Bytes>, mirror: Option<Artifact>)

  /** What fails from outside. */
  datatype Faults = Faults(
    inDatabase: bool, writeTranscript: Option<WriteStep>, writeMetadata: Option<WriteStep>, mirror: bool)

  /** One uninterrupted run. */
  function Solo(tools: Tools, level: Level, dryRun: bool, faults: Faults, f: Files): (Files, Verdict) {
    if !faults.inDatabase then (f, NotFound)
    else match f.metadata
      case None => (f, NotIngested)
      case Some(text) =>
        if tools.parse(text).None? then (f, BadMetadata)
        else if f.transcript.None? then (f, NoTranscript)
        else
          var meta := tools.parse(text).value;
          var bytes := f.transcript.value;
          if Skips(tools, level, meta, bytes) then (f, Skipped)
          else if dryRun then (f, WouldRedact)
          else
            match tools.redact(tools.rules, level, bytes)
            case None => (f, RedactorFailed)
            case Some(redacted) =>
              if faults.writeTranscript.Some? then (f, WriteTranscriptFailed)
              else
                var half := f.(transcript := Some(redacted));
                if faults.writeMetadata.Some? then (half, WriteMetadataFailed)
                else
                  var text' := NewText(tools, level, meta, redacted);
                  var both := half.(metadata := Some(text'));
                  if faults.mirror then (both, MirrorFailed)
                  else (both.(mirror := Some(Artifact(text', redacted))), Redacted)
  }

  class Session {
    const transcript: Slot
    const metadata: Slot
    var mirror: Option<Artifact>

    constructor (transcript: Slot, metadata: Slot, mirror: Option<Artifact>)
      ensures this.transcript == transcript && this.metadata == metadata && this.mirror == mirror
    {
      this.transcript, this.metadata, this.mirror := transcript, metadata, mirror;
    }

    function Content(): Files
      reads this, transcript, metadata
    {
      Files(transcript.target, metadata.target, mirror)
    }

    method Process(tools: Tools, level: Level, dryRun: bool, faults: Faults) returns (v: Verdict)
      requires transcript != metadata && transcript.temp == None && metadata.temp == None
      modifies this, transcript, metadata
      ensures (Content(), v) == old(Solo(tools, level, dryRun, faults, Content()))
      ensures transcript.temp == None && metadata.temp == None
    {
      if !faults.inDatabase {
        return NotFound;
      }
      if metadata.target.None? {
        return NotIngested;
      }
      var parsed := tools.parse(metadata.target.value);
      if parsed.None? {
        return BadMetadata;
      }
      var meta := parsed.value;
      if transcript.target.None? {
        return NoTranscript;
      }
      var bytes := transcript.target.value;
      var currentHash := tools.digest(bytes);
      if IsCurrent(tools, meta.stamp, currentHash) && meta.stamp.level == level {
        return Skipped;
      }
      if dryRun {
        return WouldRedact;
      }
      var out := tools.redact(tools.rules, level, bytes);
      if out.None? {
        return RedactorFailed;
      }
      var redacted := out.value;
      var redactedMeta := NewMeta(tools, level, meta, redacted);
      var ok := transcript.WriteAtomic(redacted, faults.writeTranscript);
      if !ok {
        return WriteTranscriptFailed;
      }
      var newMetaBytes := tools.marshal(redactedMeta);
      ok := metadata.WriteAtomic(newMetaBytes, faults.writeMetadata);
      if !ok {
        return WriteMetadataFailed;
      }
      if faults.mirror {
        return MirrorFailed;
      }
      mirror := Some(Artifact(newMetaBytes, redacted));
      return Redacted;
    }
  }

  // ----- what a run leaves -----

  /** When each verdict is given. */
  lemma VerdictsAre(tools: Tools, level: Level, dryRun: bool, faults: Faults, f: Files)
    ensures var v := Solo(tools, level, dryRun, faults, f).1;
      var parsed := if f.metadata.Some? then tools.parse(f.metadata.value) else None;
      var readable := faults.inDatabase && parsed.Some? && f.transcript.Some?;
      var current := readable && parsed.value.stamp == Stamped(level, tools.rules, tools.digest(f.transcript.value));
      var redacts := readable && !current && !dryRun && tools.redact(tools.rules, level, f.transcript.value).Some?;
      && (v == NotFound <==> !faults.inDatabase)
      && (v == NotIngested <==> faults.inDatabase && f.metadata.None?)
      && (v == BadMetadata <==> faults.inDatabase && f.metadata.Some? && parsed.None?)
      && (v == NoTranscript <==> faults.inDatabase && parsed.Some? && f.transcript.None?)
      && (v == Skipped <==> current)
      && (v == WouldRedact <==> readable && !current && dryRun)
      && (v == RedactorFailed <==> readable && !current && !dryRun && tools.redact(tools.rules, level, f.transcript.value).None?)
      && (v == WriteTranscriptFailed <==> redacts && faults.writeTranscript.Some?)
      && (v == WriteMetadataFailed <==> redacts && faults.writeTranscript.None? && faults.writeMetadata.Some?)
      && (v == MirrorFailed <==> redacts && faults.writeTranscript.None? && faults.writeMetadata.None? && faults.mirror)
      && (v == Redacted <==> redacts && faults.writeTranscript.None? && faults.writeMetadata.None? && !faults.mirror)
  {
  }

  /** The metadata of redacted bytes: the redactor's own metadata text, the digest of
      the bytes, and a stamp that carries level, rules and that digest. */
  ghost predicate Describes(tools: Tools, level: Level, before: Meta, text: Bytes, bytes: Bytes) {
    tools.parse(text)
    == Some(Meta(tools.redactBody(level, before.body), tools.digest(bytes), Stamped(level, tools.rules, tools.digest(bytes))))
  }

  /** What a run has written by the time it ends with each verdict: nothing, the
      redacted transcript, then metadata that describes it, then the copy of both. */
  lemma FilesAre(tools: Tools, level: Level, dryRun: bool, faults: Faults, f: Files)
    requires Marshals(tools)
    ensures var (after, v) := Solo(tools, level, dryRun, faults, f);
      && (v !in {WriteMetadataFailed, MirrorFailed, Redacted} ==> after == f)
      && (v in {WriteMetadataFailed, MirrorFailed, Redacted} ==>
            && f.transcript.Some? && after.transcript.Some?
            && after.transcript == tools.redact(tools.rules, level, f.transcript.value))
      && (v == WriteMetadataFailed ==> after.metadata == f.metadata && after.mirror == f.mirror)
      && (v in {MirrorFailed, Redacted} ==>
            && f.metadata.Some? && tools.parse(f.metadata.value).Some? && after.metadata.Some?
            && Describes(tools, level, tools.parse(f.metadata.value).value, after.metadata.value, after.transcript.value))
      && (v == MirrorFailed ==> after.mirror == f.mirror)
      && (v == Redacted ==> after.mirror == Some(Artifact(after.metadata.value, after.transcript.value)))
  {
  }

  const NO_FAULTS := Faults(true, None, None, false)

  /** The files vouch for each other at this level. */
  predicate CurrentPair(tools: Tools, level: Level, f: Files) {
    f.transcript.Some? && f.metadata.Some? && tools.parse(f.metadata.value).Some?
    && Skips(tools, level, tools.parse(f.metadata.value).value, f.transcript.value)
  }

  /** A second run at the same level changes nothing and reports the session as
      skipped, even where redacting twice differs from redacting once. */
  lemma SecondRunSkips(tools: Tools, level: Level, faults: Faults, again: Faults, dryRun: bool, f: Files)
    requires Marshals(tools)
    requires Solo(tools, level, false, faults, f).1 in {Redacted, MirrorFailed, Skipped} && again.inDatabase
    ensures var once := Solo(tools, level, false, faults, f).0;
      CurrentPair(tools, level, once) && Solo(tools, level, dryRun, again, once) == (once, Skipped)
  {
  }

  /** Whatever a run that failed left behind, the next run without faults ends
      with a current pair, unless the redactor refuses the transcript. */
  lemma NextRunRecovers(tools: Tools, level: Level, faults: Faults, f: Files)
    requires Marshals(tools)
    requires f.transcript.Some? && f.metadata.Some? && tools.parse(f.metadata.value).Some?
    ensures var after := Solo(tools, level, false, faults, f).0;
      var next := Solo(tools, level, false, NO_FAULTS, after);
      && after.transcript.Some?
      && (next.1 == RedactorFailed || CurrentPair(tools, level, next.0))
      && (next.1 == RedactorFailed ==> tools.redact(tools.rules, level, after.transcript.value) == None)
  {
  }

  // ----- the database copy -----

  /** The database holds what the files hold. */
  predicate Mirrored(f: Files) {
    f.mirror.Some? && f.metadata == Some(f.mirror.value.metadata) && f.transcript == Some(f.mirror.value.transcript)
  }

  /** The pair a run would write. */
  function Replacement(tools: Tools, level: Level, f: Files): Option<Artifact> {
    if f.transcript.None? || f.metadata.None? || tools.parse(f.metadata.value).None? then None
    else
      match tools.redact(tools.rules, level, f.transcript.value)
      case None => None
      case Some(redacted) =>
        Some(Artifact(NewText(tools, level, tools.parse(f.metadata.value).value, redacted), redacted))
  }

  /** When the database holds what the files hold after one run, by its verdict:
      a run stopped between its writes leaves the old copy, which is right only
      where it already was what the files became. */
  lemma MirroredAfterRunIff(tools: Tools, level: Level, dryRun: bool, faults: Faults, f: Files)
    ensures var (after, v) := Solo(tools, level, dryRun, faults, f);
      Mirrored(after) <==>
        if v == Redacted then true
        else if v == MirrorFailed then f.mirror.Some? && f.mirror == Replacement(tools, level, f)
        else if v == WriteMetadataFailed then
          && f.mirror.Some? && f.metadata == Some(f.mirror.value.metadata)
          && tools.redact(tools.rules, level, f.transcript.value) == Some(f.mirror.value.transcript)
        else Mirrored(f)
  {
  }

  /** Once the database copy alone has failed, every further run at that level
      leaves the session as it is, so the copy stays whatever it was before. */
  lemma MirrorStaysIff(tools: Tools, level: Level, faults: Faults, again: Faults, dryRun: bool, f: Files)
    requires Marshals(tools) && Solo(tools, level, false, faults, f).1 == MirrorFailed
    ensures var once := Solo(tools, level, false, faults, f).0;
      var (twice, v) := Solo(tools, level, dryRun, again, once);
      && v in {Skipped, NotFound} && twice == once && twice.mirror == f.mirror
      && (Mirrored(twice) <==> f.mirror == Replacement(tools, level, f))
  {
    var once := Solo(tools, level, false, faults, f).0;
    MirroredAfterRunIff(tools, level, false, faults, f);
    if again.inDatabase {
      SecondRunSkips(tools, level, faults, again, dryRun, f);
    }
  }

  /** After any other verdict, a second run without faults leaves the database
      right exactly when it redacted or the first run left it right. */
  lemma MirroredAfterTwoIff(tools: Tools, level: Level, faults: Faults, f: Files)
    requires Marshals(tools)
    ensures var (once, v) := Solo(tools, level, false, faults, f);
      var (twice, v') := Solo(tools, level, false, NO_FAULTS, once);
      Mirrored(twice) <==>
        if v == Redacted then true
        else if v == MirrorFailed then f.mirror == Replacement(tools, level, f)
        else v' == Redacted || Mirrored(once)
  {
    var (once, v) := Solo(tools, level, false, faults, f);
    if v == MirrorFailed {
      MirrorStaysIff(tools, level, faults, NO_FAULTS, false, f);
    } else {
      MirroredAfterRunIff(tools, level, false, NO_FAULTS, once);
    }
  }

  /** So wherever redaction changes a mirrored session, one failed database update
      leaves its old transcript there through every further run. */
  lemma OldContentStays(tools: Tools, level: Level, again: Faults, dryRun: bool, f: Files)
    requires Marshals(tools) && Mirrored(f)
    requires Solo(tools, level, false, NO_FAULTS.(mirror := true), f).1 == MirrorFailed
    requires tools.redact(tools.rules, level, f.transcript.value) != f.transcript
    ensures var once := Solo(tools, level, false, NO_FAULTS.(mirror := true), f).0;
      var twice := Solo(tools, level, dryRun, again, once).0;
      && twice.transcript == tools.redact(tools.rules, level, f.transcript.value)
      && twice.mirror == f.mirror && !Mirrored(twice)
  {
    MirrorStaysIff(tools, level, NO_FAULTS.(mirror := true), again, dryRun, f);
  }
}
