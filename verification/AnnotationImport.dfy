/** Importing annotations: a loop that creates, skips or supersedes rows of a
    table (cmd/peasant/cmd_annotate_import.go; internal/store/annotation_store.go
    for the lookup and the two writes). */
module AnnotationImport {
  import opened Wrappers

  /** What the lookup finds an annotation by. */
  datatype Key = Key(typeId: string, annotator: string, session: string, entry: Option<int>)

  /** The rest of what the content hash covers. */
  datatype Content = Content(value: string, end: Option<int>, confidence: Option<string>, reason: Option<string>)

  /** A stored annotation. The hash is taken as the content itself, None where
      it was never recorded; rows are numbered in order of creation. */
  datatype Row = Row(key: Key, hash: Option<Content>, supersededBy: Option<nat>, retired: bool)

  type Table = seq<Row>

  predicate Live(r: Row) {
    r.supersededBy.None? && !r.retired
  }

  /** The newest live row of a key. */
  function FindExisting(rows: Table, key: Key): (found: Option<nat>)
    ensures found.Some? ==> found.value < |rows| && Live(rows[found.value]) && rows[found.value].key == key
    ensures found.None? ==> forall i :: 0 <= i < |rows| && rows[i].key == key ==> !Live(rows[i])
    ensures found.Some? ==> forall i :: found.value < i < |rows| && rows[i].key == key ==> !Live(rows[i])
  {
    if rows == [] then None
    else
      var last := |rows| - 1;
      if Live(rows[last]) && rows[last].key == key then Some(last)
      else FindExisting(rows[..last], key)
  }

  // ----- records -----

  datatype Record = Record(
    annotatorKind: string, annotator: string, typeId: string, value: string, session: string,
    start: Option<int>, end: Option<int>, confidence: Option<string>, reason: string,
    model: string, provider: string)

  datatype Line = Malformed | Parsed(record: Record)

  /** The registry of types, the value domains, the annotator kinds, and the two flags. */
  datatype Setup = Setup(
    types: map<string, string>,
    inDomain: (string, string) -> bool,
    kinds: set<string>,
    modelFlag: string,
    providerFlag: string)

  const AGENT := "agent"

  /** What the store does with one record. */
  datatype Fault = NoFault | AnnotatorFails | LookupFails | WriteFails | HashFails

  function Or(text: string, fallback: string): string {
    if text != "" then text else fallback
  }

  /** The annotator a record resolves to; an agent is named with its model. */
  function AnnotatorName(setup: Setup, r: Record): Option<string> {
    if r.annotatorKind == AGENT then
      if Or(r.model, setup.modelFlag) == "" || Or(r.provider, setup.providerFlag) == "" then None
      else Some(r.annotator + ":" + Or(r.model, setup.modelFlag))
    else Some(r.annotator)
  }

  /** The key and content of a record that passes every check. */
  function Validated(setup: Setup, line: Line): Option<(Key, Content)> {
    if line.Malformed? then None
    else
      var r := line.record;
      if r.annotatorKind !in setup.kinds then None
      else if r.typeId !in setup.types then None
      else if !setup.inDomain(setup.types[r.typeId], r.value) then None
      else if AnnotatorName(setup, r).None? then None
      else Some((Key(r.typeId, AnnotatorName(setup, r).value, r.session, r.start),
                 Content(r.value, r.end, r.confidence, if r.reason == "" then None else Some(r.reason))))
  }

  datatype Outcome = Imported | Duplicate | Failed

  /** One record against the table. */
  function Step(rows: Table, record: Option<(Key, Content)>, fault: Fault): (Table, Outcome) {
    if record.None? || fault in {AnnotatorFails, LookupFails} then (rows, Failed)
    else
      var (key, content) := record.value;
      match FindExisting(rows, key)
      case None =>
        if fault == WriteFails then (rows, Failed)
        else (rows + [Row(key, if fault == HashFails then None else Some(content), None, false)], Imported)
      case Some(i) =>
        if rows[i].hash == Some(content) then (rows, Duplicate)
        else if fault == WriteFails then (rows, Failed)
        else (rows[i := rows[i].(supersededBy := Some(|rows|))] + [Row(key, Some(content), None, false)], Imported)
  }

  datatype Totals = Totals(imported: nat, records: nat, failed: nat, duplicates: nat)

  function Tally(t: Totals, o: Outcome): Totals {
    match o
    case Imported => t.(imported := t.imported + 1, records := t.records + 1)
    case Duplicate => t.(duplicates := t.duplicates + 1, records := t.records + 1)
    case Failed => t.(failed := t.failed + 1, records := t.records + 1)
  }

  type Input = seq<(Option<(Key, Content)>, Fault)>

  /** The table and the totals after a list of records. */
  function Import(rows: Table, input: Input): (Table, Totals) {
    if input == [] then (rows, Totals(0, 0, 0, 0))
    else
      var n := |input| - 1;
      var (before, totals) := Import(rows, input[..n]);
      var (after, o) := Step(before, input[n].0, input[n].1);
      (after, Tally(totals, o))
  }

  // ----- the loop -----

  /** A line as the file holds it, with what the store will do about it. */
  type SourceLine = (Line, Fault)

  function Inputs(setup: Setup, lines: seq<SourceLine>): (input: Input)
    ensures |input| == |lines|
    ensures forall i :: 0 <= i < |lines| ==> input[i] == (Validated(setup, lines[i].0), lines[i].1)
  {
    seq(|lines|, i requires 0 <= i < |lines| => (Validated(setup, lines[i].0), lines[i].1))
  }

  /** The annotators resolved on the way, known or created. */
  function Resolved(input: Input): set<string> {
    set i | 0 <= i < |input| && input[i].0.Some? && input[i].1 != AnnotatorFails :: input[i].0.value.0.annotator
  }

  lemma ResolvedOne(record: Option<(Key, Content)>, fault: Fault)
    ensures Resolved([(record, fault)])
         == if record.Some? && fault != AnnotatorFails then {record.value.0.annotator} else {}
  {
    var one := [(record, fault)];
    if record.Some? && fault != AnnotatorFails {
      assert one[0].0.value.0.annotator in Resolved(one);
    }
  }

  lemma NoneResolved(setup: Setup)
    ensures Resolved(Inputs(setup, [])) == {}
  {
  }

  lemma ResolvedOneMore(setup: Setup, lines: seq<SourceLine>, k: nat)
    requires k < |lines|
    ensures Resolved(Inputs(setup, lines[..k + 1]))
         == Resolved(Inputs(setup, lines[..k])) + Resolved([(Validated(setup, lines[k].0), lines[k].1)])
  {
    assert Inputs(setup, lines[..k + 1])
        == Inputs(setup, lines[..k]) + [(Validated(setup, lines[k].0), lines[k].1)];
    ResolvedAppend(Inputs(setup, lines[..k]), [(Validated(setup, lines[k].0), lines[k].1)]);
  }

  lemma NoneImported(setup: Setup, rows: Table)
    ensures Import(rows, Inputs(setup, [])) == (rows, Totals(0, 0, 0, 0))
  {
  }

  lemma ResolvedLines(setup: Setup, a: seq<SourceLine>, b: seq<SourceLine>)
    ensures Resolved(Inputs(setup, a + b)) == Resolved(Inputs(setup, a)) + Resolved(Inputs(setup, b))
  {
    assert Inputs(setup, a + b) == Inputs(setup, a) + Inputs(setup, b);
    ResolvedAppend(Inputs(setup, a), Inputs(setup, b));
  }

  lemma ResolvedAppend(a: Input, b: Input)
    ensures Resolved(a + b) == Resolved(a) + Resolved(b)
  {
    forall name | name in Resolved(b)
      ensures name in Resolved(a + b)
    {
      var i :| 0 <= i < |b| && b[i].0.Some? && b[i].1 != AnnotatorFails && b[i].0.value.0.annotator == name;
      assert (a + b)[|a| + i] == b[i];
    }
    forall name | name in Resolved(a)
      ensures name in Resolved(a + b)
    {
      var i :| 0 <= i < |a| && a[i].0.Some? && a[i].1 != AnnotatorFails && a[i].0.value.0.annotator == name;
      assert (a + b)[i] == a[i];
    }
  }

  /** A file of the import: one that cannot be opened, or its lines and whether
      reading stopped behind them for another reason than their end. */
  datatype SourceFile = Unopenable | Opened(lines: seq<SourceLine>, broken: bool)

  predicate Whole(file: SourceFile) {
    file.Opened? && !file.broken
  }

  /** The lines read before the import ends or stops. */
  function LinesRead(files: seq<SourceFile>): seq<SourceLine> {
    if files == [] || files[0].Unopenable? then []
    else files[0].lines + if files[0].broken then [] else LinesRead(files[1..])
  }

  /** The lines of a file stand behind those of the files before it. */
  lemma {:induction false} LinesInOrder(files: seq<SourceFile>, f: nat)
    requires f < |files| && files[f].Opened? && forall g :: 0 <= g < f ==> Whole(files[g])
    ensures LinesRead(files[..f]) + files[f].lines <= LinesRead(files)
    ensures files[f].broken || f == |files| - 1 ==> LinesRead(files) == LinesRead(files[..f]) + files[f].lines
  {
    if f > 0 {
      LinesInOrder(files[1..], f - 1);
      assert files[..f][1..] == files[1..][..f - 1];
    } else {
      assert files[..0] == [];
      assert |files| == 1 ==> files[1..] == [];
    }
  }

  /** The lines of one more file. */
  lemma LinesFrom(files: seq<SourceFile>, f: nat)
    requires f <= |files|
    ensures LinesRead(files[f..])
         == if f == |files| || files[f].Unopenable? then []
            else files[f].lines + if files[f].broken then [] else LinesRead(files[f + 1..])
  {
    if f < |files| {
      assert files[f..][1..] == files[f + 1..];
    }
  }

  lemma ImportOneMore(rows: Table, input: Input, last: (Option<(Key, Content)>, Fault))
    ensures var (before, totals) := Import(rows, input);
      var (after, o) := Step(before, last.0, last.1);
      Import(rows, input + [last]) == (after, Tally(totals, o))
  {
    assert (input + [last])[..|input|] == input;
  }

  lemma InputsOneMore(setup: Setup, done: seq<SourceLine>, lines: seq<SourceLine>, k: nat)
    requires k < |lines|
    ensures Inputs(setup, done + lines[..k + 1])
         == Inputs(setup, done + lines[..k]) + [(Validated(setup, lines[k].0), lines[k].1)]
  {
  }

  class Store {
    var rows: Table
    var annotators: set<string>

    constructor (rows: Table, annotators: set<string>)
      ensures this.rows == rows && this.annotators == annotators
    {
      this.rows, this.annotators := rows, annotators;
    }

    /** The three-way switch on what the lookup finds. */
    method ImportOne(key: Key, content: Content, fault: Fault) returns (o: Outcome)
      requires fault != AnnotatorFails
      modifies this`rows
      ensures (rows, o) == Step(old(rows), Some((key, content)), fault)
    {
      if fault == LookupFails {
        return Failed;
      }
      var existing := FindExisting(rows, key);
      if existing.None? {
        if fault == WriteFails {
          return Failed;
        }
        rows := rows + [Row(key, None, None, false)];
        if fault != HashFails {
          rows := rows[|rows| - 1 := rows[|rows| - 1].(hash := Some(content))];
        }
        assert rows == old(rows) + [Row(key, if fault == HashFails then None else Some(content), None, false)];
        return Imported;
      }
      var i := existing.value;
      if rows[i].hash == Some(content) {
        return Duplicate;
      }
      if fault == WriteFails {
        return Failed;
      }
      var newId := |rows|;
      rows := rows + [Row(key, Some(content), None, false)];
      rows := rows[i := rows[i].(supersededBy := Some(newId))];
      assert rows == old(rows)[i := old(rows)[i].(supersededBy := Some(newId))] + [Row(key, Some(content), None, false)];
      return Imported;
    }

    /** The body of the loop: one line of a file. */
    method ImportLine(setup: Setup, line: Line, fault: Fault, before: Totals) returns (totals: Totals)
      modifies this
      ensures (rows, totals) == (var (after, o) := Step(old(rows), Validated(setup, line), fault); (after, Tally(before, o)))
      ensures annotators == old(annotators) + Resolved([(Validated(setup, line), fault)])
    {
      totals := before.(records := before.records + 1);
      var valid := Validated(setup, line);
      ResolvedOne(valid, fault);
      if valid.None? || fault == AnnotatorFails {
        return totals.(failed := totals.failed + 1);
      }
      annotators := annotators + {valid.value.0.annotator};
      var o := ImportOne(valid.value.0, valid.value.1, fault);
      match o {
        case Imported => totals := totals.(imported := totals.imported + 1);
        case Duplicate => totals := totals.(duplicates := totals.duplicates + 1);
        case Failed => totals := totals.(failed := totals.failed + 1);
      }
    }

    /** The loop over the lines of one file; `done` are the lines of the files before it. */
    method ImportLines(setup: Setup, lines: seq<SourceLine>, before: Totals, ghost start: Table, ghost done: seq<SourceLine>)
        returns (totals: Totals)
      requires (rows, before) == Import(start, Inputs(setup, done))
      modifies this
      ensures (rows, totals) == Import(start, Inputs(setup, done + lines))
      ensures annotators == old(annotators) + Resolved(Inputs(setup, lines))
    {
      hide Resolved, Import, Step, Tally, Validated;
      totals := before;
      assert done + lines[..0] == done;
      NoneResolved(setup);
      for k := 0 to |lines|
        invariant (rows, totals) == Import(start, Inputs(setup, done + lines[..k]))
        invariant annotators == old(annotators) + Resolved(Inputs(setup, lines[..k]))
      {
        ghost var last := (Validated(setup, lines[k].0), lines[k].1);
        InputsOneMore(setup, done, lines, k);
        ImportOneMore(start, Inputs(setup, done + lines[..k]), last);
        ResolvedOneMore(setup, lines, k);
        totals := ImportLine(setup, lines[k].0, lines[k].1, totals);
      }
      assert lines[..|lines|] == lines;
    }

    /** The loop over the files. It stops at the first that is not whole, with an
        error and no totals; what was imported until then stays. */
    method ImportFiles(setup: Setup, files: seq<SourceFile>) returns (r: Result<Totals, nat>)
      modifies this
      ensures rows == Import(old(rows), Inputs(setup, LinesRead(files))).0
      ensures r.Ok? ==> r.value == Import(old(rows), Inputs(setup, LinesRead(files))).1
      ensures r.Ok? <==> forall f :: 0 <= f < |files| ==> Whole(files[f])
      ensures r.Err? ==>
                r.error < |files| && !Whole(files[r.error]) && forall f :: 0 <= f < r.error ==> Whole(files[f])
      ensures annotators == old(annotators) + Resolved(Inputs(setup, LinesRead(files)))
    {
      hide Import, Resolved, Inputs, LinesRead;
      var totals := Totals(0, 0, 0, 0);
      ghost var done: seq<SourceLine> := [];
      NoneResolved(setup);
      NoneImported(setup, rows);
      assert files[0..] == files;
      for f := 0 to |files|
        invariant (rows, totals) == Import(old(rows), Inputs(setup, done))
        invariant annotators == old(annotators) + Resolved(Inputs(setup, done))
        invariant LinesRead(files) == done + LinesRead(files[f..])
        invariant forall g :: 0 <= g < f ==> Whole(files[g])
      {
        var file := files[f];
        LinesFrom(files, f);
        if file.Unopenable? {
          assert done + [] == done;
          return Err(f);
        }
        totals := ImportLines(setup, file.lines, totals, old(rows), done);
        ResolvedLines(setup, done, file.lines);
        assert file.lines + [] == file.lines;
        assert done + (file.lines + LinesRead(files[f + 1..])) == (done + file.lines) + LinesRead(files[f + 1..]);
        done := done + file.lines;
        if file.broken {
          return Err(f);
        }
      }
      LinesFrom(files, |files|);
      assert done + [] == done;
      r := Ok(totals);
    }
  }
}
