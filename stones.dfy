/** Cell contents and the two sides. */
module Stones {

  /** What one cell of a board holds: 'b', 'w' or '_'. */
  datatype Stone = BlackStone | WhiteStone | Empty

  /** The side to move. */
  datatype Color = Black | White

  /** The stone that a side places on the boards. */
  function StoneOf(player: Color): Stone {
    if player == Black then BlackStone else WhiteStone
  }

  /** Whether `stone` belongs to `player`; an empty cell belongs to nobody. */
  predicate Owns(stone: Stone, player: Color)
    ensures Owns(stone, player) <==> stone == StoneOf(player)
  {
    match stone
    case WhiteStone => player == White
    case BlackStone => player == Black
    case Empty => false
  }

  /** The side that is not `player`. */
  function Other(player: Color): (r: Color)
    ensures r != player
  {
    if player == Black then White else Black
  }

  /** The character of a stone in the board text form. */
  function StoneChar(s: Stone): char {
    match s
    case BlackStone => 'b'
    case WhiteStone => 'w'
    case Empty => '_'
  }

  predicate IsStoneChar(c: char) {
    c == 'b' || c == 'w' || c == '_'
  }

  function CharStone(c: char): (s: Stone)
    requires IsStoneChar(c)
    ensures StoneChar(s) == c
  {
    if c == 'b' then BlackStone else if c == 'w' then WhiteStone else Empty
  }

  /** The first character of the side's name ('black'[0], 'white'[0]). */
  function ColorInitial(player: Color): char {
    if player == Black then 'b' else 'w'
  }
}
