/** The task editor dialog's input handling: the title check on save and
    the normalisation of the values it hands back. */
module TaskEditor {
  import opened Text
  import opened Models

  /** The warning shown when the title is blank. */
  const EmptyTitleWarning := "Başlık boş olamaz."

  datatype SaveOutcome = Accepted | Refused(warning: string)

  /** `_on_save`: the dialog closes only when the title has a character
      other than whitespace; otherwise it warns and stays open. */
  function OnSave(titleText: string): (r: SaveOutcome)
    ensures r == Accepted <==> exists k | 0 <= k < |titleText| :: !IsSpace(titleText[k])
    ensures r.Refused? ==> r.warning == EmptyTitleWarning
  {
    if Strip(titleText) == [] then Refused(EmptyTitleWarning) else Accepted
  }

  /** What the dialog returns: title, description, due date and the new
      subtasks' titles. */
  datatype Values = Values(title: string, description: string, due: Option<int>, subtasks: seq<string>)

  /** `get_values` on the widgets' contents: `dueValue` is the date-time
      editor's value, used only when the "has due" box is checked. */
  function GetValues(titleText: string, descText: string, hasDue: bool, dueValue: int, subtasksText: string)
    : (v: Values)
    ensures v.title == Strip(titleText) && v.description == Strip(descText)
    ensures v.due.None? <==> !hasDue
    ensures v.due.Some? ==> v.due.value == dueValue
    ensures forall i | 0 <= i < |v.subtasks| :: IsClean(v.subtasks[i]) && '\n' !in v.subtasks[i]
  {
    var lines := Split(subtasksText, '\n');
    var subs := Clean(lines);
    assert forall i | 0 <= i < |subs| :: '\n' !in subs[i] by {
      forall i | 0 <= i < |subs| ensures '\n' !in subs[i] {
        assert subs[i] in subs;
        CleanMembers(lines, subs[i]);
        var j :| 0 <= j < |lines| && Strip(lines[j]) == subs[i];
        StripIsInfix(lines[j]);
      }
    }
    Values(Strip(titleText), Strip(descText), if hasDue then Some(dueValue) else None, subs)
  }

  /** The subtask list holds, in order, the trimmed text of every line that
      is not blank, and nothing else. */
  lemma SubtasksAreLines(subtasksText: string, titleText: string, descText: string, hasDue: bool, dueValue: int)
    ensures var lines := Split(subtasksText, '\n');
            var subs := GetValues(titleText, descText, hasDue, dueValue, subtasksText).subtasks;
            subs == Clean(lines)
            && forall y :: y in subs <==> y != [] && exists i | 0 <= i < |lines| :: Strip(lines[i]) == y
  {
    var lines := Split(subtasksText, '\n');
    forall y ensures y in Clean(lines) <==> y != [] && exists i | 0 <= i < |lines| :: Strip(lines[i]) == y {
      CleanMembers(lines, y);
    }
  }

  /** A dialog that accepted its save hands back a non-empty trimmed title. */
  lemma SavedTitleIsClean(titleText: string, descText: string, hasDue: bool, dueValue: int, subtasksText: string)
    requires OnSave(titleText) == Accepted
    ensures IsClean(GetValues(titleText, descText, hasDue, dueValue, subtasksText).title)
  {
  }

  /** Writing clean subtask titles one per line and reading them back gives
      the same titles. */
  lemma {:induction false} SubtasksRoundTrip(subs: seq<string>, titleText: string, descText: string, hasDue: bool, dueValue: int)
    requires forall i | 0 <= i < |subs| :: IsClean(subs[i]) && '\n' !in subs[i]
    ensures GetValues(titleText, descText, hasDue, dueValue, Join(subs, '\n')).subtasks == subs
  {
    if subs == [] {
      assert Split("", '\n') == [""];
      CleanOne("");
    } else {
      SplitJoin(subs, '\n');
      CleanOfClean(subs);
    }
  }

  /** Normalising twice changes nothing: the values handed back, entered
      again, come back unchanged. */
  lemma GetValuesIdempotent(titleText: string, descText: string, hasDue: bool, dueValue: int, subtasksText: string)
    ensures var v := GetValues(titleText, descText, hasDue, dueValue, subtasksText);
            GetValues(v.title, v.description, hasDue, dueValue, Join(v.subtasks, '\n')) == v
  {
    var v := GetValues(titleText, descText, hasDue, dueValue, subtasksText);
    StripIdempotent(titleText);
    StripIdempotent(descText);
    SubtasksRoundTrip(v.subtasks, v.title, v.description, hasDue, dueValue);
  }

  /** The subtask field is editable only for a new task: a dialog opened
      with any title (even a blank one that is not empty) disables it. */
  function SubtasksEditable(initialTitle: string): (editable: bool)
    ensures editable <==> |initialTitle| == 0
  {
    initialTitle == ""
  }
}
