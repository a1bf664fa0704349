/** What importing annotations keeps and means. */
module AnnotationTheorems {
  import opened Wrappers
  import opened AnnotationImport

  // ----- the table -----

  ghost predicate OneLive(rows: Table) {
    forall i, j :: 0 <= i < j < |rows| && Live(rows[i]) && Live(rows[j]) ==> rows[i].key != rows[j].key
  }

  /** A superseded row points to a later row of its own key. */
  ghost predicate PointsForward(rows: Table) {
    forall i :: 0 <= i < |rows| && rows[i].supersededBy.Some? ==>
      i < rows[i].supersededBy.value < |rows| && rows[rows[i].supersededBy.value].key == rows[i].key
  }

  ghost predicate Sound(rows: Table) {
    OneLive(rows) && PointsForward(rows)
  }

  lemma StepKeeps(rows: Table, record: Option<(Key, Content)>, fault: Fault)
    requires Sound(rows)
    ensures Sound(Step(rows, record, fault).0)
    ensures |rows| <= |Step(rows, record, fault).0|
    ensures |Step(rows, record, fault).0| == |rows| + if Step(rows, record, fault).1 == Imported then 1 else 0
  {
  }

  /** Any list of records, whatever the store does, keeps at most one live row
      per key and an acyclic supersession; and every record is counted once. */
  lemma {:induction false} ImportKeeps(rows: Table, input: Input)
    requires Sound(rows)
    ensures var (after, t) := Import(rows, input);
      && Sound(after)
      && t.imported + t.duplicates + t.failed == t.records == |input|
      && |after| == |rows| + t.imported
  {
    if input != [] {
      var n := |input| - 1;
      ImportKeeps(rows, input[..n]);
      StepKeeps(Import(rows, input[..n]).0, input[n].0, input[n].1);
    }
  }

  /** Where the supersessions of a row end. */
  function EndOf(rows: Table, i: nat): nat
    requires i < |rows|
    decreases |rows| - i
  {
    if rows[i].supersededBy.Some? && i < rows[i].supersededBy.value < |rows| then EndOf(rows, rows[i].supersededBy.value)
    else i
  }

  lemma FindIs(rows: Table, key: Key, i: nat)
    requires OneLive(rows) && i < |rows| && Live(rows[i]) && rows[i].key == key
    ensures FindExisting(rows, key) == Some(i)
  {
    var found := FindExisting(rows, key);
    assert found.Some?;
    assert !(found.value < i) && !(i < found.value);
  }

  /** Every row leads to a row of its own key that nothing supersedes: the live
      row of that key, unless it was retired. */
  lemma {:induction false} SupersessionEnds(rows: Table, i: nat)
    requires Sound(rows) && i < |rows|
    ensures var end := EndOf(rows, i);
      && i <= end < |rows| && rows[end].key == rows[i].key && rows[end].supersededBy.None?
      && (rows[end].retired || FindExisting(rows, rows[i].key) == Some(end))
    decreases |rows| - i
  {
    if rows[i].supersededBy.Some? {
      SupersessionEnds(rows, rows[i].supersededBy.value);
    } else if !rows[i].retired {
      FindIs(rows, rows[i].key, i);
    }
  }

  // ----- last writer wins -----

  /** The content the live row of a key was recorded with. */
  function LiveContent(rows: Table, key: Key): Option<Option<Content>> {
    match FindExisting(rows, key)
    case None => None
    case Some(i) => Some(rows[i].hash)
  }

  /** The content of the last valid record of a key. */
  function LastContent(input: Input, key: Key): Option<Content> {
    if input == [] then None
    else
      var last := input[|input| - 1].0;
      if last.Some? && last.value.0 == key then Some(last.value.1) else LastContent(input[..|input| - 1], key)
  }

  /** The last, by position. */
  lemma {:induction false} LastContentIsLast(input: Input, key: Key, i: nat)
    requires i < |input| && input[i].0.Some? && input[i].0.value.0 == key
    requires forall j :: i < j < |input| ==> input[j].0.None? || input[j].0.value.0 != key
    ensures LastContent(input, key) == Some(input[i].0.value.1)
  {
    if i < |input| - 1 {
      LastContentIsLast(input[..|input| - 1], key, i);
    }
  }

  lemma {:induction false} NoContent(input: Input, key: Key)
    requires forall j :: 0 <= j < |input| ==> input[j].0.None? || input[j].0.value.0 != key
    ensures LastContent(input, key) == None
  {
    if input != [] {
      NoContent(input[..|input| - 1], key);
    }
  }

  ghost predicate NoFaults(input: Input) {
    forall i :: 0 <= i < |input| ==> input[i].1 == NoFault
  }

  /** One record settles the content of its own key and leaves every other key alone. */
  lemma StepSettles(rows: Table, record: Option<(Key, Content)>, key: Key)
    requires Sound(rows)
    ensures LiveContent(Step(rows, record, NoFault).0, key)
         == if record.Some? && record.value.0 == key then Some(Some(record.value.1)) else LiveContent(rows, key)
  {
    if record.Some? {
      var (k, content) := record.value;
      var after := Step(rows, record, NoFault).0;
      StepKeeps(rows, record, NoFault);
      if key == k {
        if Step(rows, record, NoFault).1 != Duplicate {
          FindIs(after, key, |rows|);
        }
      } else {
        var found := FindExisting(rows, key);
        if found.Some? {
          assert after[found.value] == rows[found.value];
          FindIs(after, key, found.value);
        } else {
          forall i | 0 <= i < |after| && after[i].key == key
            ensures !Live(after[i])
          {
            assert i < |rows| && rows[i].key == key;
          }
        }
      }
    }
  }

  /** The last valid record of a key decides its content; a key without one keeps its own. */
  lemma {:induction false} LastWriterWins(rows: Table, input: Input, key: Key)
    requires Sound(rows) && NoFaults(input)
    ensures LiveContent(Import(rows, input).0, key)
         == if LastContent(input, key).Some? then Some(Some(LastContent(input, key).value)) else LiveContent(rows, key)
  {
    if input != [] {
      var n := |input| - 1;
      LastWriterWins(rows, input[..n], key);
      ImportKeeps(rows, input[..n]);
      StepSettles(Import(rows, input[..n]).0, input[n].0, key);
    }
  }

  // ----- importing again -----

  predicate Agree(a: Option<(Key, Content)>, b: Option<(Key, Content)>) {
    a.Some? && b.Some? && a.value.0 == b.value.0 ==> a.value.1 == b.value.1
  }

  /** The file has one content per key. */
  ghost predicate OneContentPerKey(input: Input) {
    forall i, j :: 0 <= i < |input| && 0 <= j < |input| ==> Agree(input[i].0, input[j].0)
  }

  /** Every valid record is already the live content of its key. */
  ghost predicate AllHeld(rows: Table, input: Input) {
    forall i :: 0 <= i < |input| && input[i].0.Some? ==>
      LiveContent(rows, input[i].0.value.0) == Some(Some(input[i].0.value.1))
  }

  lemma {:induction false} ImportGrows(rows: Table, input: Input)
    ensures |Import(rows, input).0| == |rows| + Import(rows, input).1.imported
    ensures Import(rows, input).1.imported == 0 ==> Import(rows, input).0 == rows
  {
    if input != [] {
      ImportGrows(rows, input[..|input| - 1]);
    }
  }

  /** A run changes nothing exactly when every valid record is already held. */
  lemma {:induction false} UnchangedIffHeld(rows: Table, input: Input)
    requires NoFaults(input)
    ensures Import(rows, input).0 == rows <==> AllHeld(rows, input)
  {
    if input != [] {
      var n := |input| - 1;
      var init := input[..n];
      UnchangedIffHeld(rows, init);
      ImportGrows(rows, init);
      ImportGrows(rows, input);
      assert AllHeld(rows, input) <==> AllHeld(rows, init) && AllHeld(rows, [input[n]]) by {
        assert input == init + [input[n]];
        if AllHeld(rows, init) && AllHeld(rows, [input[n]]) {
          forall i | 0 <= i < |input| && input[i].0.Some?
            ensures LiveContent(rows, input[i].0.value.0) == Some(Some(input[i].0.value.1))
          {
            assert i < n ==> init[i] == input[i];
            assert i == n ==> [input[n]][0] == input[i];
          }
        }
        if AllHeld(rows, input) {
          assert forall i :: 0 <= i < n ==> init[i] == input[i];
        }
      }
      assert Import(rows, init).1.imported > 0 ==> |Import(rows, input).0| > |rows|;
    }
  }

  lemma {:induction false} LastContentIs(input: Input, key: Key)
    ensures LastContent(input, key).Some? ==>
      exists i :: 0 <= i < |input| && input[i].0 == Some((key, LastContent(input, key).value))
    ensures LastContent(input, key).None? ==>
      forall i :: 0 <= i < |input| && input[i].0.Some? ==> input[i].0.value.0 != key
  {
    if input != [] {
      var n := |input| - 1;
      LastContentIs(input[..n], key);
      if LastContent(input, key).Some? && !(input[n].0.Some? && input[n].0.value.0 == key) {
        var i :| 0 <= i < n && input[..n][i].0 == Some((key, LastContent(input, key).value));
        assert input[i].0 == Some((key, LastContent(input, key).value));
      }
    }
  }

  /** Importing a file a second time changes no row exactly when the file has
      one content per key; otherwise its contents supersede each other again. */
  lemma ReimportUnchangedIff(rows: Table, input: Input)
    requires Sound(rows) && NoFaults(input)
    ensures var once := Import(rows, input).0;
      Import(once, input).0 == once <==> OneContentPerKey(input)
  {
    var once := Import(rows, input).0;
    UnchangedIffHeld(once, input);
    forall i | 0 <= i < |input| && input[i].0.Some?
      ensures LiveContent(once, input[i].0.value.0) == Some(LastContent(input, input[i].0.value.0))
      ensures exists j :: 0 <= j < |input| && LastContent(input, input[i].0.value.0).Some?
                && input[j].0 == Some((input[i].0.value.0, LastContent(input, input[i].0.value.0).value))
    {
      LastWriterWins(rows, input, input[i].0.value.0);
      LastContentIs(input, input[i].0.value.0);
    }
  }

  /** A run whose records are all held imports nothing and counts every valid one as a duplicate. */
  lemma {:induction false} HeldCounts(held: Table, input: Input)
    requires NoFaults(input) && AllHeld(held, input)
    ensures var (after, t) := Import(held, input);
      && after == held && t.imported == 0
      && t.failed == InvalidCount(input) && t.duplicates == |input| - InvalidCount(input)
  {
    UnchangedIffHeld(held, input);
    ImportGrows(held, input);
    if input != [] {
      var n := |input| - 1;
      forall i | 0 <= i < n && input[..n][i].0.Some?
        ensures LiveContent(held, input[..n][i].0.value.0) == Some(Some(input[..n][i].0.value.1))
      {
        assert input[i] == input[..n][i];
      }
      HeldCounts(held, input[..n]);
      assert input[n].0.Some? ==> LiveContent(held, input[n].0.value.0) == Some(Some(input[n].0.value.1));
    }
  }

  /** So importing a file with one content per key again creates no row and
      supersedes none; it counts every valid record as a duplicate. */
  lemma {:induction false} ReimportCounts(rows: Table, input: Input)
    requires Sound(rows) && NoFaults(input) && OneContentPerKey(input)
    ensures var once := Import(rows, input).0;
      var (again, t) := Import(once, input);
      && again == once && t.imported == 0
      && t.failed == InvalidCount(input) && t.duplicates == |input| - InvalidCount(input)
  {
    var once := Import(rows, input).0;
    ReimportUnchangedIff(rows, input);
    UnchangedIffHeld(once, input);
    HeldCounts(once, input);
  }

  function InvalidCount(input: Input): nat {
    if input == [] then 0
    else InvalidCount(input[..|input| - 1]) + if input[|input| - 1].0.None? then 1 else 0
  }
}
