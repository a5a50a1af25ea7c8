/** The Visual Editor's operations on a bot configuration: stage list editing
    (add, delete, replace by name, drag reorder), the expanded-stage list,
    the per-stage card edits (text fields, segments, wakeups), and the pure
    parts of saving and importing (the name guard and the name derivations).
    Every operation returns a new value; nothing is mutated. */
module StageEditor {
  import opened Results
  import opened Text
  import opened Sequences
  import opened BotConfig

  /** The editor component's state: the document, the names of the stages
      whose cards are expanded (a list, possibly with repeats), and the
      config-name input. */
  datatype Editor = Editor(config: Config, expanded: seq<string>, configName: string)

  function WithStages(e: Editor, stages: seq<Stage>): Editor {
    e.(config := e.config.(stages := stages))
  }

  // ---------------------------------------------------------------------
  // Expanded cards

  /** Flips a stage card open or shut: a name already listed is removed
      (every occurrence), otherwise it is appended. */
  function ToggleExpansion(expanded: seq<string>, name: string): (r: seq<string>)
    ensures name in r <==> name !in expanded
    ensures forall m :: m != name ==> (m in r <==> m in expanded)
    ensures name !in expanded ==> r == expanded + [name]
    ensures name in expanded ==> IsSubsequence(r, expanded) && multiset(r) == multiset(expanded)[name := 0]
  {
    if name in expanded then
      var keep := m => m != name;
      var r := Filter(expanded, keep);
      FilterIsSubsequence(expanded, keep);
      FilterMultiset(expanded, keep);
      FilterContains(expanded, keep);
      assert multiset(r) == multiset(expanded)[name := 0];
      r
    else expanded + [name]
  }

  /** Toggling the same card twice restores which names are listed; when the
      name was not listed it restores the list exactly. */
  lemma {:induction false} ToggleTwice(expanded: seq<string>, name: string)
    ensures forall m :: m in ToggleExpansion(ToggleExpansion(expanded, name), name) <==> m in expanded
    ensures name !in expanded ==> ToggleExpansion(ToggleExpansion(expanded, name), name) == expanded
  {
    if name !in expanded {
      var keep := m => m != name;
      FilterConcat(expanded, [name], keep);
      assert Filter([name], keep) == [];
    }
  }

  // ---------------------------------------------------------------------
  // Adding, deleting and replacing stages

  /** The fixed prefix of generated stage names, Russian for "New stage ". */
  const NewStagePrefix: string := "Новая стадия "

  /** The name a new stage gets when the list holds `count` stages. */
  function NewStageName(count: nat): (r: string)
    ensures |r| > |NewStagePrefix| && r[..|NewStagePrefix|] == NewStagePrefix
    ensures IsDigits(r[|NewStagePrefix|..])
    ensures |r| > |NewStagePrefix| + 1 ==> r[|NewStagePrefix|] != '0'
    ensures ParseDigits(r[|NewStagePrefix|..]) == count + 1
  {
    var digits := NatToString(count + 1);
    ParseNatToString(count + 1);
    assert (NewStagePrefix + digits)[|NewStagePrefix|..] == digits;
    assert (NewStagePrefix + digits)[|NewStagePrefix|] == digits[0];
    NewStagePrefix + digits
  }

  /** Different stage counts give different generated names. */
  lemma NewStageNameInjective(m: nat, n: nat)
    ensures NewStageName(m) == NewStageName(n) <==> m == n
  {
    var dm, dn := NatToString(m + 1), NatToString(n + 1);
    assert NewStageName(m)[|NewStagePrefix|..] == dm;
    assert NewStageName(n)[|NewStagePrefix|..] == dn;
    NatToStringInjective(m + 1, n + 1);
  }

  function BlankStage(name: string): Stage {
    Stage(name, "", "", "", "", "", "", "", [], [])
  }

  /** `addNewStage`: appends a blank stage named after the new count and
      expands its card. Existing stages are kept as they were, and no check
      is made that the name is unused. */
  function AddNewStage(e: Editor): (r: Editor)
    ensures |r.config.stages| == |e.config.stages| + 1
    ensures r.config.stages[..|e.config.stages|] == e.config.stages
    ensures Last(r.config.stages) == BlankStage(NewStageName(|e.config.stages|))
    ensures Last(r.config.stages).name == NewStageName(|e.config.stages|)
    ensures r.expanded == e.expanded + [NewStageName(|e.config.stages|)]
    ensures r.config.(stages := e.config.stages) == e.config && r.configName == e.configName
  {
    var st := BlankStage(NewStageName(|e.config.stages|));
    Editor(e.config.(stages := e.config.stages + [st]), e.expanded + [st.name], e.configName)
  }

  function NamedOtherThan(name: string): Stage -> bool {
    (st: Stage) => st.name != name
  }

  /** `deleteStage`: removes every stage with the given name, keeping the
      others in order, and removes the name from the expanded list. */
  function DeleteStage(e: Editor, name: string): (r: Editor)
    ensures forall i :: 0 <= i < |r.config.stages| ==> r.config.stages[i].name != name
    ensures forall st :: multiset(r.config.stages)[st]
                         == if st.name == name then 0 else multiset(e.config.stages)[st]
    ensures IsSubsequence(r.config.stages, e.config.stages)
    ensures name !in r.expanded
    ensures forall m :: m != name ==> (m in r.expanded <==> m in e.expanded)
    ensures name !in Names(e.config.stages) ==> r.config.stages == e.config.stages
    ensures name !in e.expanded ==> r.expanded == e.expanded
    ensures r.config.(stages := e.config.stages) == e.config && r.configName == e.configName
  {
    var keepStage := NamedOtherThan(name);
    var keepName := m => m != name;
    FilterMultiset(e.config.stages, keepStage);
    FilterIsSubsequence(e.config.stages, keepStage);
    FilterContains(e.expanded, keepName);
    assert name !in Names(e.config.stages) ==> forall i :: 0 <= i < |e.config.stages| ==> keepStage(e.config.stages[i]);
    Editor(e.config.(stages := Filter(e.config.stages, keepStage)),
           Filter(e.expanded, keepName),
           e.configName)
  }

  /** Adding a stage and deleting it straight away restores the editor,
      provided no stage and no expanded entry already had the new name. */
  lemma AddThenDelete(e: Editor)
    requires NewStageName(|e.config.stages|) !in Names(e.config.stages)
    requires NewStageName(|e.config.stages|) !in e.expanded
    ensures DeleteStage(AddNewStage(e), NewStageName(|e.config.stages|)) == e
  {
    var name := NewStageName(|e.config.stages|);
    var stages := e.config.stages;
    var d := DeleteStage(AddNewStage(e), name);
    assert d.config.stages == stages by {
      var keepStage := NamedOtherThan(name);
      forall i | 0 <= i < |stages| ensures keepStage(stages[i]) {
        assert Names(stages)[i] == stages[i].name;
      }
      FilterDropsAppended(stages, BlankStage(name), keepStage);
    }
    assert d.expanded == e.expanded by {
      var keepName := m => m != name;
      FilterDropsAppended(e.expanded, name, keepName);
    }
  }

  /** Stage names are not an invariant: after adding two stages and deleting
      the first, adding another produces a second stage with the name of the
      one still present. */
  lemma DeleteThenAddRepeatsName(e: Editor)
    requires e.config.stages == []
    ensures var e3 := AddNewStage(DeleteStage(AddNewStage(AddNewStage(e)), NewStageName(0)));
            |e3.config.stages| == 2 && e3.config.stages[0].name == e3.config.stages[1].name
  {
    var e2 := AddNewStage(AddNewStage(e));
    assert e2.config.stages == [BlankStage(NewStageName(0)), BlankStage(NewStageName(1))];
    NewStageNameInjective(0, 1);
    var d := DeleteStage(e2, NewStageName(0));
    assert d.config.stages == [BlankStage(NewStageName(1))] by {
      var keep := NamedOtherThan(NewStageName(0));
      assert e2.config.stages == [BlankStage(NewStageName(0))] + [BlankStage(NewStageName(1))];
      FilterConcat([BlankStage(NewStageName(0))], [BlankStage(NewStageName(1))], keep);
    }
  }

  /** `updateStage`: every stage whose name equals the given stage's name is
      replaced by it; positions and names are kept, and when no name matches
      the list is unchanged. */
  function UpdateStage(stages: seq<Stage>, updated: Stage): (r: seq<Stage>)
    ensures |r| == |stages|
    ensures forall i :: 0 <= i < |r| ==> r[i].name == stages[i].name
    ensures forall i :: 0 <= i < |r| && stages[i].name == updated.name ==> r[i] == updated
    ensures forall i :: 0 <= i < |r| && stages[i].name != updated.name ==> r[i] == stages[i]
    ensures updated.name !in Names(stages) ==> r == stages
  {
    seq(|stages|, i requires 0 <= i < |stages| =>
      if stages[i].name == updated.name then updated else stages[i])
  }

  /** Replacing with the same stage twice is replacing once. */
  lemma UpdateStageIdempotent(stages: seq<Stage>, updated: Stage)
    ensures UpdateStage(UpdateStage(stages, updated), updated) == UpdateStage(stages, updated)
  {
  }

  /** Because identity is the name, an edit meant for one stage also
      overwrites every other stage that shares its name. */
  lemma UpdateStageOverwritesNamesakes(stages: seq<Stage>, i: nat, j: nat, updated: Stage)
    requires i < |stages| && j < |stages| && stages[i].name == stages[j].name
    requires updated.name == stages[i].name
    ensures UpdateStage(stages, updated)[i] == UpdateStage(stages, updated)[j] == updated
  {
  }

  // ---------------------------------------------------------------------
  // Drag reorder

  function NamedAs(name: string): Stage -> bool {
    (st: Stage) => st.name == name
  }

  /** `arrayMove` on an index that `findIndex` may have returned as -1:
      `splice` reads a negative start from the end of the array, and the
      target index is computed from the original length, so -1 acts as the
      last index in both positions. (An empty list has no card to drag.) */
  function MoveFound<T>(s: seq<T>, from: int, to: int): (r: seq<T>)
    requires -1 <= from < |s| && -1 <= to < |s|
    ensures |r| == |s| && multiset(r) == multiset(s)
    ensures 0 <= from && 0 <= to ==> r == ArrayMove(s, from, to)
    ensures from == -1 && 0 <= to ==> r == ArrayMove(s, |s| - 1, to)
    ensures 0 <= from && to == -1 ==> r == ArrayMove(s, from, |s| - 1)
    ensures from == -1 && to == -1 ==> r == s
  {
    if |s| == 0 then s
    else if 0 <= from && 0 <= to then ArrayMove(s, from, to)
    else if 0 <= to then ArrayMove(s, |s| - 1, to)
    else if 0 <= from then ArrayMove(s, from, |s| - 1)
    else ArrayMove(s, |s| - 1, |s| - 1)
  }

  /** `stages.findIndex(stage => stage.name === name)`: the first stage with
      that name, or -1 when there is none. */
  function IndexOfStage(stages: seq<Stage>, name: string): (r: int)
    ensures -1 <= r < |stages|
    ensures r == -1 <==> name !in Names(stages)
    ensures r >= 0 ==> stages[r].name == name && forall k :: 0 <= k < r ==> stages[k].name != name
  {
    var r := FindIndex(stages, NamedAs(name));
    assert r >= 0 ==> NamedAs(name)(stages[r]);
    assert forall k :: 0 <= k < r ==> !NamedAs(name)(stages[k]);
    assert name in Names(stages) ==> r >= 0 by {
      if name in Names(stages) {
        var k :| 0 <= k < |stages| && Names(stages)[k] == name;
        assert NamedAs(name)(stages[k]);
      }
    }
    r
  }

  /** `handleDragEnd` of the stage list: the dragged stage (found by name)
      is moved to the position of the stage it was dropped on. Dropping it on
      itself changes nothing; with no drop target the handler fails on
      `over.id` before touching the state. */
  function ReorderStages(stages: seq<Stage>, active: string, over: Option<string>): (r: seq<Stage>)
    ensures |r| == |stages| && multiset(r) == multiset(stages)
    ensures over == None || over == Some(active) ==> r == stages
    ensures over.Some? && over.value != active
            && active in Names(stages) && over.value in Names(stages) ==>
              var from := IndexOfStage(stages, active);
              var to := IndexOfStage(stages, over.value);
              && r[to] == stages[from] && r[to].name == active
              && RemoveAt(r, to) == RemoveAt(stages, from)
  {
    match over
    case None => stages
    case Some(target) =>
      if active == target then stages
      else MoveFound(stages, IndexOfStage(stages, active), IndexOfStage(stages, target))
  }

  // ---------------------------------------------------------------------
  // Stage card edits

  /** The free-text fields a stage card edits inline. */
  datatype TextField = Prompt | Question | Theme | Offer

  function FieldValue(st: Stage, f: TextField): string {
    match f
    case Prompt => st.prompt
    case Question => st.question
    case Theme => st.theme
    case Offer => st.offer
  }

  /** An inline edit of one text field: that field takes the new value and
      nothing else changes, the name in particular. */
  function SetField(st: Stage, f: TextField, value: string): (r: Stage)
    ensures FieldValue(r, f) == value
    ensures forall g :: g != f ==> FieldValue(r, g) == FieldValue(st, g)
    ensures r.name == st.name && r.segments == st.segments && r.wakeups == st.wakeups
    ensures r.terminal == st.terminal && r.terms == st.terms && r.time == st.time
  {
    match f
    case Prompt => st.(prompt := value)
    case Question => st.(question := value)
    case Theme => st.(theme := value)
    case Offer => st.(offer := value)
  }

  /** `handleSegmentSave`: every segment with the saved segment's id is
      replaced by it; the list keeps its length and all other entries. */
  function SaveSegment(st: Stage, saved: Segment): (r: Stage)
    ensures r.(segments := st.segments) == st
    ensures |r.segments| == |st.segments|
    ensures forall i :: 0 <= i < |r.segments| && st.segments[i].id == saved.id ==> r.segments[i] == saved
    ensures forall i :: 0 <= i < |r.segments| && st.segments[i].id != saved.id ==> r.segments[i] == st.segments[i]
    ensures forall i :: 0 <= i < |r.segments| ==> r.segments[i].id == st.segments[i].id
  {
    st.(segments := seq(|st.segments|, i requires 0 <= i < |st.segments| =>
      if st.segments[i].id == saved.id then saved else st.segments[i]))
  }

  /** `handleWakeupSave`. The source finds the edited wakeup by object
      identity; here the edit target is its index. A target no longer in the
      list (a stale reference) matches nothing. */
  function SaveWakeup(st: Stage, editing: nat, saved: Wakeup): (r: Stage)
    ensures r.(wakeups := st.wakeups) == st
    ensures |r.wakeups| == |st.wakeups|
    ensures editing < |st.wakeups| ==> r.wakeups[editing] == saved
    ensures forall i :: 0 <= i < |r.wakeups| && i != editing ==> r.wakeups[i] == st.wakeups[i]
  {
    if editing < |st.wakeups| then st.(wakeups := st.wakeups[editing := saved]) else st
  }

  /** The segment `addNewSegment` creates: the id is "seg" followed by the
      clock reading `now`, everything else empty. */
  function NewSegment(now: nat): Segment {
    Segment("seg" + NatToString(now), "", "", [])
  }

  /** `addNewSegment`: appends `NewSegment(now)`, which the card then opens
      for editing. */
  function AddNewSegment(st: Stage, now: nat): (r: Stage)
    ensures r.(segments := st.segments) == st
    ensures |r.segments| == |st.segments| + 1 && r.segments[..|st.segments|] == st.segments
    ensures var s := Last(r.segments);
            s.segmentType == "" && s.description == "" && s.examples == []
            && |s.id| > 3 && s.id[..3] == "seg"
            && IsDigits(s.id[3..]) && (|s.id| > 4 ==> s.id[3] != '0')
            && ParseDigits(s.id[3..]) == now
  {
    var s := NewSegment(now);
    ParseNatToString(now);
    assert s.id[3..] == NatToString(now);
    assert s.id[3] == NatToString(now)[0];
    st.(segments := st.segments + [s])
  }

  const DefaultWakeupTimer: int := 15

  /** `addNewWakeup`: appends a wakeup with a 15 second timer and empty
      texts; the card then edits the wakeup at index `|st.wakeups|`. */
  function AddNewWakeup(st: Stage): (r: Stage)
    ensures r.(wakeups := st.wakeups) == st
    ensures |r.wakeups| == |st.wakeups| + 1 && r.wakeups[..|st.wakeups|] == st.wakeups
    ensures Last(r.wakeups) == Wakeup("", DefaultWakeupTimer, "", "")
  {
    st.(wakeups := st.wakeups + [Wakeup("", 15, "", "")])
  }

  /** Adding a segment and then saving the edited form (which keeps the new
      id) leaves the earlier segments alone and puts the edit at the end,
      as long as the clock gave an id no earlier segment has. */
  lemma AddSegmentThenSave(st: Stage, now: nat, edited: Segment)
    requires edited.id == NewSegment(now).id
    requires forall i :: 0 <= i < |st.segments| ==> st.segments[i].id != edited.id
    ensures SaveSegment(AddNewSegment(st, now), edited) == st.(segments := st.segments + [edited])
  {
    var a := AddNewSegment(st, now);
    var r := SaveSegment(a, edited);
    assert a.segments == st.segments + [NewSegment(now)];
    assert r.segments == st.segments + [edited];
  }

  /** Adding a wakeup and then saving the edited form puts the edit at the
      end and leaves the earlier wakeups alone. */
  lemma AddWakeupThenSave(st: Stage, edited: Wakeup)
    ensures SaveWakeup(AddNewWakeup(st), |st.wakeups|, edited) == st.(wakeups := st.wakeups + [edited])
  {
    var r := SaveWakeup(AddNewWakeup(st), |st.wakeups|, edited);
    assert r.wakeups == st.wakeups + [edited];
  }

  /** Card edits never change the stage name, so the `updateStage` that
      follows writes the edited stage back to the position it came from (and
      to any namesake) and leaves every other stage alone. */
  lemma CardEditLandsInPlace(stages: seq<Stage>, i: nat, edited: Stage)
    requires i < |stages| && edited.name == stages[i].name
    ensures var r := UpdateStage(stages, edited);
            r[i] == edited
            && forall j :: 0 <= j < |stages| && stages[j].name != stages[i].name ==> r[j] == stages[j]
  {
  }

  // ---------------------------------------------------------------------
  // Save and import names

  datatype SaveError = EmptyName

  const ConfigDirectory: string := "/home/project/src/components/sections/Workflow/configs/"

  /** The name guard of `saveConfig`: a blank config name stops the save
      before any request; otherwise the file is the trimmed name plus
      ".json". */
  function SaveFileName(configName: string): (r: Result<string, SaveError>)
    ensures r.Failure? <==> IsBlank(configName)
    ensures r.Success? ==> r.value == Trim(configName) + ".json" && Trim(configName) != []
  {
    TrimEmptyIffBlank(configName);
    var trimmed := Trim(configName);
    if trimmed == [] then Failure(EmptyName) else Success(trimmed + ".json")
  }

  /** Where the save request goes for a non-blank name. */
  function SavePath(configName: string): (r: Result<string, SaveError>)
    ensures r.Failure? <==> IsBlank(configName)
    ensures r.Success? ==> r.value == ConfigDirectory + Trim(configName) + ".json"
  {
    match SaveFileName(configName)
    case Failure(err) => Failure(err)
    case Success(file) => Success(ConfigDirectory + file)
  }

  /** The config name `handleFileSelect` derives from a file name: the first
      ".json" is cut out wherever it is, and a name without one is kept. */
  function ImportedName(fileName: string): (r: string)
    ensures !Contains(fileName, ".json") ==> r == fileName
    ensures Contains(fileName, ".json") ==> |r| == |fileName| - 5
    ensures Contains(fileName, ".json") ==>
              exists k: nat :: && OccursAt(fileName, ".json", k)
                               && (forall j: nat :: j < k ==> !OccursAt(fileName, ".json", j))
                               && r == fileName[..k] + fileName[k + 5..]
  {
    RemoveFirst(fileName, ".json")
  }

  /** A file the user picked: its name and, when its text parsed as JSON,
      the document it holds (parsing is outside the model). */
  datatype PickedFile = PickedFile(name: string, parsed: Option<Config>)

  /** `handleFileSelect`: no file, or a file that does not parse, leaves the
      editor as it was; otherwise the document is replaced wholesale and the
      config name is derived from the file name. The expanded list is kept. */
  function ImportFile(e: Editor, file: Option<PickedFile>): (r: Editor)
    ensures file.None? || file.value.parsed.None? ==> r == e
    ensures file.Some? && file.value.parsed.Some? ==>
              r.config == file.value.parsed.value
              && r.configName == ImportedName(file.value.name)
              && r.expanded == e.expanded
  {
    match file
    case None => e
    case Some(f) =>
      match f.parsed
      case None => e
      case Some(c) => Editor(c, e.expanded, ImportedName(f.name))
  }

  /** Saving under a name and importing the saved file gives back the trimmed
      name, unless that name itself contains ".json". */
  lemma SaveThenImportName(configName: string)
    requires !IsBlank(configName)
    requires !Contains(Trim(configName), ".json")
    ensures SaveFileName(configName).Success?
    ensures ImportedName(SaveFileName(configName).value) == Trim(configName)
  {
    var pat := ".json";
    assert forall k :: 1 <= k < |pat| ==> pat[k] != pat[0];
    RemoveFirstOfAppended(Trim(configName), pat);
  }
}
