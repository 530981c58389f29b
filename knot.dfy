/**
 * The "endless knot" motif: a 27 x 27 picture over a four-symbol alphabet, the
 * colour each symbol stands for, and the motif turned a quarter round, which
 * alternates with it on the board.
 */
module Knot {

  /** The four colours of the board: light blue, black, orange and red. */
  datatype Color = LightBlue | Black | Orange | Red

  /** The side of the motif, in board cells. */
  const Side: nat := 27

  /** The colour of each motif symbol. */
  const Colors: map<char, Color> := map['.' := LightBlue, '#' := Black, '~' := Orange, '*' := Red]

  /** `baseKnot`: row i of the motif is the i-th line of the drawing. */
  const BaseKnot: seq<string> := [
    "......#########...#########",
    "......#~~~~~~~#...#~~~~~~~#",
    "......#~#####~#...#~#####~#",
    "...##########~###########~#",
    "...#********#~#********##~#",
    "...#*########~########*##~#",
    "#######~###########~#####~#",
    "#~~~~~#~#~~~~~~~~~#~#~~~~~#",
    "#~#####~###########~#######",
    "#~##*##~###########~##*#...",
    "#~##*##~##*******##~##*#...",
    "#~##*##~##*#####*##~##*#...",
    "#~##*########~########*####",
    "#~~#*#~~~~~~#~#~~~~~~#*#~~#",
    "####*########~########*##~#",
    "...#*##~##*#####*##~##*##~#",
    "...#*##~##*******##~##*##~#",
    "...#*##~###########~##*##~#",
    "#######~###########~##*##~#",
    "#~~~~~#~#~~~~~~~~~#~#~~~~~#",
    "#~#####~###########~#######",
    "#~##*########~########*#...",
    "#~##********#~#********#...",
    "#~###########~##########...",
    "#~#####~#...#~#####~#......",
    "#~~~~~~~#...#~~~~~~~#......",
    "#########...#########......"
  ]

  /** Every symbol of the row has a colour. */
  predicate Colored(s: string)
  {
    forall c :: c in s ==> c in Colors
  }

  /** A square grid of symbols of side `Side`. */
  predicate IsSquare(k: seq<string>)
  {
    |k| == Side && forall i :: 0 <= i < |k| ==> |k[i]| == Side
  }

  /** A motif: a square grid every symbol of which has a colour. */
  predicate IsMotif(k: seq<string>)
  {
    IsSquare(k) && forall i :: 0 <= i < |k| ==> Colored(k[i])
  }

  /** The colour `colors[knot[i][j]]` of the motif cell (i, j). */
  function ColorAt(k: seq<string>, i: int, j: int): (c: Color)
    requires IsMotif(k) && 0 <= i < Side && 0 <= j < Side
    ensures k[i][j] in Colors && c == Colors[k[i][j]]
  {
    assert k[i][j] in k[i];
    Colors[k[i][j]]
  }

  /** Different symbols have different colours, and there are no other symbols. */
  lemma {:induction false} ColorsInjective(a: char, b: char)
    requires a in Colors && b in Colors
    ensures Colors[a] == Colors[b] <==> a == b
    ensures a in {'.', '#', '~', '*'}
  {
  }
  /**
   * In a motif a cell's colour names its symbol: two cells get the same colour
   * exactly when they hold the same symbol, so the drawn tile shows the motif.
   */
  lemma {:induction false} ColorNamesSymbol(k: seq<string>, i: int, j: int, i2: int, j2: int)
    requires IsMotif(k) && 0 <= i < Side && 0 <= j < Side && 0 <= i2 < Side && 0 <= j2 < Side
    ensures ColorAt(k, i, j) == ColorAt(k, i2, j2) <==> k[i][j] == k[i2][j2]
  {
    ColorsInjective(k[i][j], k[i2][j2]);
  }


  /**
   * The `baseKnot2` construction applied to any square grid: entry (i, j) of
   * the result is entry (j, 26 - i) of the grid, a quarter turn.
   */
  function Rotate(k: seq<string>): (r: seq<string>)
    requires IsSquare(k)
    ensures IsSquare(r)
    ensures forall i, j :: 0 <= i < Side && 0 <= j < Side ==> r[i][j] == k[j][Side - 1 - i]
  {
    seq(|k|, i requires 0 <= i < |k| => seq(|k[i]|, j requires 0 <= j < |k[i]| => k[j][Side - 1 - i]))
  }

  /** `baseKnot2`: the motif turned a quarter round. */
  const BaseKnot2: seq<string> := Rotate(BaseKnot)

  /** Turning a motif keeps its alphabet: every symbol of the result still has a colour. */
  lemma {:induction false} RotateMotif(k: seq<string>)
    requires IsMotif(k)
    ensures IsMotif(Rotate(k))
  {
    var r := Rotate(k);
    forall i | 0 <= i < Side
      ensures Colored(r[i])
    {
      forall c | c in r[i]
        ensures c in Colors
      {
        var j :| 0 <= j < Side && r[i][j] == c;
        assert k[j][Side - 1 - i] in k[j];
      }
    }
  }

  /** Four quarter turns give back the grid. */
  lemma {:induction false} RotateFour(k: seq<string>)
    requires IsSquare(k)
    ensures Rotate(Rotate(Rotate(Rotate(k)))) == k
  {
    var r1 := Rotate(k);
    var r2 := Rotate(r1);
    var r3 := Rotate(r2);
    var r4 := Rotate(r3);
    forall i | 0 <= i < Side
      ensures r4[i] == k[i]
    {
      forall j | 0 <= j < Side
        ensures r4[i][j] == k[i][j]
      {
        assert r4[i][j] == r3[j][Side - 1 - i] == r2[Side - 1 - i][Side - 1 - j] == r1[Side - 1 - j][i];
      }
    }
  }

  /*
   * The motif's alphabet, row block by row block (the literal is large, so
   * each block is checked on its own).
   */
  lemma {:induction false} ColoredRows0()
    ensures forall i :: 0 <= i < 4 ==> forall c :: c in BaseKnot[i] ==> c in Colors
  {
  }

  lemma {:induction false} ColoredRows4()
    ensures forall i :: 4 <= i < 8 ==> forall c :: c in BaseKnot[i] ==> c in Colors
  {
  }

  lemma {:induction false} ColoredRows8()
    ensures forall i :: 8 <= i < 12 ==> forall c :: c in BaseKnot[i] ==> c in Colors
  {
  }

  lemma {:induction false} ColoredRows12()
    ensures forall i :: 12 <= i < 16 ==> forall c :: c in BaseKnot[i] ==> c in Colors
  {
  }

  lemma {:induction false} ColoredRows16()
    ensures forall i :: 16 <= i < 20 ==> forall c :: c in BaseKnot[i] ==> c in Colors
  {
  }

  lemma {:induction false} ColoredRows20()
    ensures forall i :: 20 <= i < 24 ==> forall c :: c in BaseKnot[i] ==> c in Colors
  {
  }

  lemma {:induction false} ColoredRows24()
    ensures forall i :: 24 <= i < 27 ==> forall c :: c in BaseKnot[i] ==> c in Colors
  {
  }

  /** `baseKnot` is 27 rows of 27 symbols, each of which has a colour. */
  lemma {:induction false} BaseKnotIsMotif()
    ensures IsMotif(BaseKnot)
  {
    ColoredRows0();
    ColoredRows4();
    ColoredRows8();
    ColoredRows12();
    ColoredRows16();
    ColoredRows20();
    ColoredRows24();
  }

  /** The two motifs differ: the top-left cell is light blue in one and black in the other. */
  lemma {:induction false} BaseKnotsDiffer()
    ensures BaseKnot != BaseKnot2
  {
    assert BaseKnot[0][0] == '.';
    assert BaseKnot2[0][0] == BaseKnot[0][Side - 1] == '#';
  }

  /** `baseKnot2` has the same shape and alphabet, and turning it three more times gives back `baseKnot`. */
  lemma {:induction false} BaseKnot2IsMotif()
    ensures IsMotif(BaseKnot2)
    ensures Rotate(Rotate(Rotate(BaseKnot2))) == BaseKnot
  {
    BaseKnotIsMotif();
    RotateMotif(BaseKnot);
    RotateFour(BaseKnot);
  }
}
