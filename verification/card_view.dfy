/**
 * A card on the dashboard: its priority badge, looked up in a fixed table
 * with a grey "None" fallback, and its delete button.
 */
module CardView {
  import opened Types

  /**
   * The text and colour class of a priority badge. The text is the source's
   * `label` field; `label` is a reserved word in Dafny.
   */
  datatype Badge = Badge(title: string, color: string)

  /** The `LEVELS` table. */
  const Levels: map<int, Badge> := map[
    1 := Badge("Low", "bg-green-500"),
    2 := Badge("Medium", "bg-yellow-500"),
    3 := Badge("High", "bg-red-500")
  ]

  /** The badge shown for a level that is not in the table. */
  const Fallback := Badge("None", "bg-gray-400")

  /** `LEVELS[data.level] || { label: "None", color: "bg-gray-400" }` */
  function BadgeFor(level: int): (b: Badge)
    ensures b == Fallback <==> level !in Levels
  {
    if level in Levels then Levels[level] else Fallback
  }

  /** The badge of every level: three named tiers and the grey fallback for the rest. */
  lemma BadgeTable(level: int)
    ensures level == 1 ==> BadgeFor(level) == Badge("Low", "bg-green-500")
    ensures level == 2 ==> BadgeFor(level) == Badge("Medium", "bg-yellow-500")
    ensures level == 3 ==> BadgeFor(level) == Badge("High", "bg-red-500")
    ensures !(1 <= level <= 3) ==> BadgeFor(level) == Badge("None", "bg-gray-400")
  {
  }

  /** Different tiers get different badges: the lookup never merges two levels of the table. */
  lemma BadgesDistinct(a: int, b: int)
    requires a in Levels && b in Levels && a != b
    ensures BadgeFor(a).title != BadgeFor(b).title && BadgeFor(a).color != BadgeFor(b).color
  {
  }

  /** A card as rendered: its fields and the database id it is deleted by. */
  datatype CardData = CardData(docId: string, data: BoardData)

  /** `handleDelete`: the calls made to `onDelete`, in order. */
  method HandleDelete(card: CardData) returns (calls: seq<string>)
    ensures calls == [card.docId]
  {
    calls := [card.docId];
  }
}
