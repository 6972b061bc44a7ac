/**
 * The add-task form of a board column: a draft card edited field by field,
 * a priority picked with one of three buttons, and a submit that hands the
 * draft (stamped with the current time as its id) to the board and starts
 * over with a blank draft.
 */
module DraftForm {
  import opened Types

  /** The blank draft a column starts with and returns to after each submit. */
  const InitialDraft := BoardData(-1, "", "", 1, "")

  /** The `name` attributes of the three text inputs. */
  datatype DraftField = Header | Desc | Person

  /** The three priority buttons. */
  datatype LevelOption = Low | Medium | High {
    /** The level a button selects. */
    function Value(): (v: int)
      ensures 1 <= v <= 3
    {
      match this
      case Low => 1
      case Medium => 2
      case High => 3
    }
  }

  /** `{ ...prev, [name]: value }` for one of the three text inputs. */
  function WithField(d: BoardData, field: DraftField, value: string): (r: BoardData)
    ensures r.id == d.id && r.level == d.level
    ensures r.header == (if field == Header then value else d.header)
    ensures r.desc == (if field == Desc then value else d.desc)
    ensures r.person == (if field == Person then value else d.person)
  {
    match field
    case Header => d.(header := value)
    case Desc => d.(desc := value)
    case Person => d.(person := value)
  }

  /** The colour classes of a priority button, given the draft's level. */
  function ButtonClass(opt: LevelOption, level: int): string {
    if level == opt.Value() then
      if opt.Value() == 1 then "bg-green-500 text-white"
      else if opt.Value() == 2 then "bg-yellow-500 text-black"
      else "bg-red-500 text-white"
    else "bg-gray-200 text-black"
  }

  /** A button is shown highlighted exactly when its value is the draft's level. */
  lemma HighlightIff(opt: LevelOption, level: int)
    ensures ButtonClass(opt, level) != "bg-gray-200 text-black" <==> level == opt.Value()
  {
  }

  /** When the draft's level is one of the three, exactly one button is highlighted. */
  lemma {:induction false} ExactlyOneHighlighted(level: int)
    requires 1 <= level <= 3
    ensures exists opt: LevelOption :: ButtonClass(opt, level) != "bg-gray-200 text-black"
    ensures forall a: LevelOption, b: LevelOption ::
              ButtonClass(a, level) != "bg-gray-200 text-black" && ButtonClass(b, level) != "bg-gray-200 text-black"
              ==> a == b
  {
    var opt := if level == 1 then Low else if level == 2 then Medium else High;
    HighlightIff(opt, level);
    forall a: LevelOption, b: LevelOption
      | ButtonClass(a, level) != "bg-gray-200 text-black" && ButtonClass(b, level) != "bg-gray-200 text-black"
      ensures a == b
    {
      HighlightIff(a, level);
      HighlightIff(b, level);
    }
  }

  /** The add form of the column `columnId`. */
  class Column {
    const columnId: string
    var draft: BoardData

    /** The draft's level is always one a button can select. */
    ghost predicate Valid()
      reads this
    {
      1 <= draft.level <= 3
    }

    constructor (columnId: string)
      ensures Valid()
      ensures this.columnId == columnId && draft == InitialDraft
    {
      this.columnId := columnId;
      draft := InitialDraft;
    }

    /** `handleChange`: the input named `field` now holds `value`. */
    method HandleChange(field: DraftField, value: string)
      requires Valid()
      modifies this
      ensures Valid()
      ensures draft == WithField(old(draft), field, value)
    {
      draft := WithField(draft, field, value);
    }

    /** Clicking a priority button. */
    method SelectLevel(opt: LevelOption)
      requires Valid()
      modifies this
      ensures Valid()
      ensures draft == old(draft).(level := opt.Value())
    {
      draft := draft.(level := opt.Value());
    }

    /**
     * `handleSubmit`: `onSubmitAdd` is called once with the column id and
     * the draft carrying `now` as its id; the draft is then blank again.
     */
    method HandleSubmit(now: int) returns (submitted: (string, BoardData))
      requires Valid()
      modifies this
      ensures Valid()
      ensures submitted == (columnId, old(draft).(id := now))
      ensures draft == InitialDraft
    {
      submitted := (columnId, draft.(id := now));
      draft := InitialDraft;
    }
  }
}
