/**
 * The shared record types of the dashboard: a `Board` holds three lanes of
 * `BoardData` cards, keyed "To Do", "In Progress" and "Done".
 */
module Types {

  /** The keys of a `Board`, in the order they are declared and enumerated. */
  datatype BoardLane = ToDo | InProgress | Done

  /** One card of the board. */
  datatype BoardData = BoardData(id: int, header: string, desc: string, level: int, person: string)

  /** The board: one ordered sequence of cards per lane. */
  datatype Board = Board(toDo: seq<BoardData>, inProgress: seq<BoardData>, done: seq<BoardData>) {

    /** The cards stored under key `l`. */
    function Lane(l: BoardLane): seq<BoardData> {
      match l
      case ToDo => toDo
      case InProgress => inProgress
      case Done => done
    }
  }

  /** The position of a key in the enumeration order of a `Board`. */
  function Rank(l: BoardLane): (r: nat)
    ensures r < 3 && KeyOrder[r] == l
  {
    match l
    case ToDo => 0
    case InProgress => 1
    case Done => 2
  }

  /** The keys of a `Board` in enumeration order. */
  const KeyOrder: seq<BoardLane> := [ToDo, InProgress, Done]
}
