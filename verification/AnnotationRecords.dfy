/** Which records are imported, and which row each of them lands on
    (cmd/peasant/cmd_annotate_import.go). */
module AnnotationRecords {
  import opened Wrappers
  import opened AnnotationImport
  import opened AnnotationTheorems

  /** A line that is imported unless the store fails: it parses, its kind, type and
      value are registered, and an agent has a model and a provider, its own or the
      flag's. */
  predicate Importable(setup: Setup, line: Line) {
    line.Parsed? &&
    var r := line.record;
    && r.annotatorKind in setup.kinds
    && r.typeId in setup.types && setup.inDomain(setup.types[r.typeId], r.value)
    && (r.annotatorKind == "agent" ==>
          (r.model != "" || setup.modelFlag != "") && (r.provider != "" || setup.providerFlag != ""))
  }

  /** The annotator of a record: an agent goes by its model, its own before the flag's. */
  function NameOf(setup: Setup, r: Record): string {
    if r.annotatorKind == "agent" then r.annotator + ":" + (if r.model != "" then r.model else setup.modelFlag)
    else r.annotator
  }

  /** Where a record belongs and what it says there. */
  function KeyOf(setup: Setup, r: Record): Key {
    Key(r.typeId, NameOf(setup, r), r.session, r.start)
  }

  function ContentOf(r: Record): Content {
    Content(r.value, r.end, r.confidence, if r.reason != "" then Some(r.reason) else None)
  }

  /** The table, the totals and the annotators after one line. */
  function After(setup: Setup, rows: Table, line: Line, fault: Fault): Table {
    Import(rows, Inputs(setup, [(line, fault)])).0
  }

  function Counted(setup: Setup, rows: Table, line: Line, fault: Fault): Totals {
    Import(rows, Inputs(setup, [(line, fault)])).1
  }

  lemma OneLine(setup: Setup, rows: Table, line: Line, fault: Fault)
    ensures var record := if Importable(setup, line) then Some((KeyOf(setup, line.record), ContentOf(line.record))) else None;
      && Inputs(setup, [(line, fault)]) == [(record, fault)]
      && After(setup, rows, line, fault) == Step(rows, record, fault).0
      && Counted(setup, rows, line, fault) == Tally(Totals(0, 0, 0, 0), Step(rows, record, fault).1)
  {
    hide Step;
    ImportOneMore(rows, [], Inputs(setup, [(line, fault)])[0]);
    assert [] + [Inputs(setup, [(line, fault)])[0]] == Inputs(setup, [(line, fault)]);
  }

  /** A line counts as imported or as a duplicate exactly when it is importable and
      the store does not fail; as a duplicate exactly when its key's live row says
      the same already. */
  lemma CountedIff(setup: Setup, rows: Table, line: Line, fault: Fault)
    ensures var t := Counted(setup, rows, line, fault);
      && t.records == 1 && t.imported + t.duplicates + t.failed == 1
      && (t.duplicates == 1 <==>
            && Importable(setup, line) && fault !in {AnnotatorFails, LookupFails}
            && LiveContent(rows, KeyOf(setup, line.record)) == Some(Some(ContentOf(line.record))))
      && (t.imported == 1 <==>
            && Importable(setup, line) && fault in {NoFault, HashFails}
            && LiveContent(rows, KeyOf(setup, line.record)) != Some(Some(ContentOf(line.record))))
  {
    OneLine(setup, rows, line, fault);
  }

  /** Importing a record makes its value, end, confidence and reason the live content
      of its type, annotator, session and start entry (a new row whose hash could not
      be written has none); it leaves every other key its rows, and of its own key
      marks at most the live row as superseded by a new one. */
  lemma LandsOnItsKey(setup: Setup, rows: Table, line: Line, fault: Fault)
    requires Sound(rows) && Importable(setup, line) && fault in {NoFault, HashFails}
    ensures var r, after := line.record, After(setup, rows, line, fault);
      var key := Key(r.typeId, NameOf(setup, r), r.session, r.start);
      && LiveContent(after, key)
         == (if fault == HashFails && FindExisting(rows, key).None? then Some(None)
             else Some(Some(Content(r.value, r.end, r.confidence, if r.reason != "" then Some(r.reason) else None))))
      && |rows| <= |after| <= |rows| + 1
      && (|after| > |rows| ==> after[|rows|].key == key)
      && (forall i :: 0 <= i < |rows| ==>
            after[i] == rows[i]
            || (rows[i].key == key && Live(rows[i]) && after[i] == rows[i].(supersededBy := Some(|rows|)) && |after| > |rows|))
      && (forall other :: other != key ==> FindExisting(after, other) == FindExisting(rows, other))
  {
    hide After, LiveContent, Importable;
    OneLine(setup, rows, line, fault);
    var key, content := KeyOf(setup, line.record), ContentOf(line.record);
    StepRows(rows, key, content, fault);
    forall other | other != key
      ensures FindExisting(Step(rows, Some((key, content)), fault).0, other) == FindExisting(rows, other)
    {
      OtherKeys(rows, key, content, fault, other);
    }
    OwnKey(rows, key, content, fault);
  }

  lemma StepRows(rows: Table, key: Key, content: Content, fault: Fault)
    requires fault in {NoFault, HashFails}
    ensures var after := Step(rows, Some((key, content)), fault).0;
      && |rows| <= |after| <= |rows| + 1
      && (|after| > |rows| ==> after[|rows|].key == key && Live(after[|rows|]))
      && (forall i :: 0 <= i < |rows| ==>
            after[i] == rows[i]
            || (rows[i].key == key && Live(rows[i]) && after[i] == rows[i].(supersededBy := Some(|rows|)) && |after| > |rows|))
  {
  }

  lemma OtherKeys(rows: Table, key: Key, content: Content, fault: Fault, other: Key)
    requires fault in {NoFault, HashFails} && other != key
    ensures FindExisting(Step(rows, Some((key, content)), fault).0, other) == FindExisting(rows, other)
  {
    var after := Step(rows, Some((key, content)), fault).0;
    StepRows(rows, key, content, fault);
    hide Step;
    SameFind(rows, after[..|rows|], other);
    if |after| > |rows| {
      assert after == after[..|rows|] + [after[|rows|]];
    } else {
      assert after == after[..|rows|];
    }
  }

  lemma {:induction false} SameFind(rows: Table, after: Table, other: Key)
    requires |rows| == |after|
    requires forall i :: 0 <= i < |rows| ==> after[i] == rows[i] || (after[i].key != other && rows[i].key != other)
    ensures FindExisting(after, other) == FindExisting(rows, other)
  {
    if rows != [] {
      SameFind(rows[..|rows| - 1], after[..|rows| - 1], other);
    }
  }

  lemma OwnKey(rows: Table, key: Key, content: Content, fault: Fault)
    requires Sound(rows) && fault in {NoFault, HashFails}
    ensures LiveContent(Step(rows, Some((key, content)), fault).0, key)
         == if fault == HashFails && FindExisting(rows, key).None? then Some(None) else Some(Some(content))
  {
    if fault == NoFault || FindExisting(rows, key).Some? {
      StepSettles(rows, Some((key, content)), key);
    }
  }

  /** The second of two records touches the row of the first exactly when type,
      annotator, session and start entry agree: it supersedes it or finds it as its own. */
  lemma SharesRowIff(setup: Setup, rows: Table, a: Line, b: Line, i: nat)
    requires Sound(rows) && Importable(setup, a) && Importable(setup, b)
    requires FindExisting(After(setup, rows, a, NoFault), KeyOf(setup, a.record)) == Some(i)
    ensures var one := After(setup, rows, a, NoFault);
      var two := After(setup, one, b, NoFault);
      && |one| <= |two|
      && (two[i] != one[i] || FindExisting(two, KeyOf(setup, b.record)) == Some(i) <==>
            && a.record.typeId == b.record.typeId && NameOf(setup, a.record) == NameOf(setup, b.record)
            && a.record.session == b.record.session && a.record.start == b.record.start)
  {
    var one := After(setup, rows, a, NoFault);
    OneLine(setup, rows, a, NoFault);
    StepKeeps(rows, Some((KeyOf(setup, a.record), ContentOf(a.record))), NoFault);
    OneLine(setup, one, b, NoFault);
    hide After, Importable;
    LandsOnItsKey(setup, one, b, NoFault);
  }

  /** The annotators a line resolves. */
  lemma ResolvesIts(setup: Setup, line: Line, fault: Fault)
    ensures Resolved(Inputs(setup, [(line, fault)]))
         == if Importable(setup, line) && fault != AnnotatorFails then {NameOf(setup, line.record)} else {}
  {
    OneLine(setup, [], line, fault);
    ResolvedOne(Inputs(setup, [(line, fault)])[0].0, fault);
  }
}
