/** The kanban board: three columns keyed by status code, routing of cards
    to columns, and the decision a column takes when a card is dropped on it. */
module Kanban {
  import opened Text
  import opened Models

  datatype Column = Todo | InProgress | Done

  /** The status code each column is created with. */
  function StatusCode(c: Column): (code: string)
    ensures code in {"todo", "in_progress", "done"}
  {
    match c
    case Todo => "todo"
    case InProgress => "in_progress"
    case Done => "done"
  }

  /** `add_task`'s choice of column: "in_progress" and "done" pick their
      columns, any other status (unknown ones included) the todo column. */
  function ColumnFor(status: string): (c: Column)
    ensures c == InProgress <==> status == "in_progress"
    ensures c == Done <==> status == "done"
    ensures c == Todo <==> status != "in_progress" && status != "done"
  {
    if status == "in_progress" then InProgress
    else if status == "done" then Done
    else Todo
  }

  /** A card is routed to the column whose status code it carries, so
      distinct columns have distinct codes. */
  lemma ColumnForStatusCode(c: Column)
    ensures ColumnFor(StatusCode(c)) == c
    ensures forall d :: StatusCode(d) == StatusCode(c) ==> d == c
  {
    forall d | StatusCode(d) == StatusCode(c) ensures d == c {
      assert ColumnFor(StatusCode(d)) == d;
    }
  }

  /** The `task_dropped` signal: a task id and the receiving column's code. */
  datatype DropSignal = DropSignal(taskId: int, status: string)

  /** `dropEvent` with the drop guarded by what `int()` parses: a drop from
      the same column only reorders and signals nothing; a drop from
      elsewhere signals when its text is a decimal number. */
  function Drop(sameColumn: bool, text: string, column: Column): (r: Option<DropSignal>)
    ensures r.Some? <==> !sameColumn && IsDigits(text)
    ensures r.Some? ==> r.value.taskId >= 0 && NatToString(r.value.taskId) == StripZeros(text)
                        && r.value.status == StatusCode(column)
  {
    if sameColumn || !IsDigits(text) then None
    else
      var id := ParseNat(text);
      NatToStringParse(text);
      Some(DropSignal(id, StatusCode(column)))
  }

  /** The text without its leading zeros, keeping one digit. */
  function StripZeros(s: string): (r: string)
    requires IsDigits(s)
    ensures IsDigits(r) && |r| <= |s| && r == s[|s| - |r|..]
    ensures |r| == 1 || r[0] != '0'
    ensures forall k | 0 <= k < |s| - |r| :: s[k] == '0'
  {
    if |s| > 1 && s[0] == '0' then StripZeros(s[1..]) else s
  }

  /** Printing the parsed number gives the text back, less leading zeros. */
  lemma {:induction false} NatToStringParse(s: string)
    requires IsDigits(s)
    ensures NatToString(ParseNat(s)) == StripZeros(s)
    decreases |s|
  {
    if |s| > 1 && s[0] == '0' {
      NatToStringParse(s[1..]);
      LeadingZero(s);
    } else {
      NatToStringUnique(s, ParseNat(s));
    }
  }

  lemma {:induction false} LeadingZero(s: string)
    requires IsDigits(s) && |s| > 1 && s[0] == '0'
    ensures ParseNat(s) == ParseNat(s[1..])
    decreases |s|
  {
    if |s| > 2 {
      assert s[..|s| - 1][1..] == s[1..][..|s| - 2];
      LeadingZero(s[..|s| - 1]);
    } else {
      assert s[..1] == "0";
      assert s[1..][..0] == [];
    }
  }

  /** A digit string without a leading zero is the printed form of its value. */
  lemma {:induction false} NatToStringUnique(s: string, n: nat)
    requires IsDigits(s) && (|s| == 1 || s[0] != '0') && ParseNat(s) == n
    ensures NatToString(n) == s
    decreases |s|
  {
    var init := s[..|s| - 1];
    var last := DigitValue(s[|s| - 1]);
    if |s| == 1 {
      assert n == last;
    } else {
      assert init[0] == s[0];
      NatToStringUnique(init, ParseNat(init));
      assert n / 10 == ParseNat(init) && n % 10 == last;
      assert s == init + [s[|s| - 1]];
    }
  }

  /** A card dragged from another column carries `str(task_id)`, and the
      receiving column signals exactly that id with its own code. */
  lemma DragCarriesId(id: nat, to: Column)
    ensures Drop(false, NatToString(id), to) == Some(DropSignal(id, StatusCode(to)))
  {
  }

  /** Python's `str.isdigit` on one character, over the ASCII digits and the
      superscript and subscript digits. */
  predicate PyIsDigit(c: char) {
    || IsDigit(c)
    || c == '\U{B2}' || c == '\U{B3}' || c == '\U{B9}' || c == '\U{2070}'
    || ('\U{2074}' <= c <= '\U{2079}') || ('\U{2080}' <= c <= '\U{2089}')
  }

  /** `str.isdigit`: non-empty, and every character a digit in the sense
      above; every ASCII digit string passes. */
  predicate PyIsDigits(s: string): (b: bool)
    ensures b ==> |s| > 0
    ensures IsDigits(s) ==> b
  {
    |s| > 0 && forall k | 0 <= k < |s| :: PyIsDigit(s[k])
  }

  /** How `dropEvent` as written ends: a signal, nothing, or the error
      `int()` raises on text that `isdigit` let through. */
  datatype DropOutcome = Emitted(signal: DropSignal) | Ignored | Raised

  /** `dropEvent` with the `isdigit` guard it has. */
  function DropAsWritten(sameColumn: bool, text: string, column: Column): (r: DropOutcome)
    ensures r == Ignored <==> sameColumn || !PyIsDigits(text)
    ensures r.Emitted? <==> !sameColumn && IsDigits(text)
    ensures r.Emitted? ==> r.signal == DropSignal(ParseNat(text), StatusCode(column))
  {
    if sameColumn || !PyIsDigits(text) then Ignored
    else if IsDigits(text) then Emitted(DropSignal(ParseNat(text), StatusCode(column)))
    else Raised
  }

  /** The superscript two passes `isdigit` but is no decimal number: a text
      drop of "²" from another application ends in an error. */
  lemma SuperscriptDropRaises(column: Column)
    ensures DropAsWritten(false, "\U{B2}", column) == Raised
  {
    assert !IsDigit("\U{B2}"[0]);
  }

  /** The guarded drop never fails, and agrees with the code as written on
      every drop that does not end in an error. */
  lemma DropAgrees(sameColumn: bool, text: string, column: Column)
    ensures DropAsWritten(sameColumn, text, column) != Raised ==>
              (Drop(sameColumn, text, column).Some? <==> DropAsWritten(sameColumn, text, column).Emitted?)
    ensures DropAsWritten(sameColumn, text, column).Emitted? ==>
              Drop(sameColumn, text, column) == Some(DropAsWritten(sameColumn, text, column).signal)
  {
  }

  /** A card on the board, identified by its task. */
  datatype Card = Card(taskId: int)

  /** The board: the cards in each column, top to bottom. */
  class KanbanBoard {
    var todo: seq<Card>
    var inProgress: seq<Card>
    var done: seq<Card>

    function Cards(c: Column): seq<Card>
      reads this
    {
      match c
      case Todo => todo
      case InProgress => inProgress
      case Done => done
    }

    function Total(): nat
      reads this
    {
      |todo| + |inProgress| + |done|
    }

    constructor ()
      ensures forall c :: Cards(c) == []
    {
      todo, inProgress, done := [], [], [];
    }

    /** `clear_all`: every column is emptied. */
    method ClearAll()
      modifies this
      ensures forall c :: Cards(c) == []
      ensures Total() == 0
    {
      todo, inProgress, done := [], [], [];
    }

    /** `add_task`: the card goes to the bottom of the column its status
        routes to; the other two columns are unchanged. */
    method AddTask(status: string, card: Card)
      modifies this
      ensures Cards(ColumnFor(status)) == old(Cards(ColumnFor(status))) + [card]
      ensures forall c | c != ColumnFor(status) :: Cards(c) == old(Cards(c))
      ensures Total() == old(Total()) + 1
    {
      if status == "in_progress" {
        inProgress := inProgress + [card];
      } else if status == "done" {
        done := done + [card];
      } else {
        todo := todo + [card];
      }
    }
  }
}
