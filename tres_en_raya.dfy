/**
 * The tic-tac-toe page (javascript/tres-en-raya/tresenraya.js): nine cells
 * `c1`..`c9`, numbered 0..8 here, each showing '', 'X' or 'O'; the turn; the
 * two scores; and the winner of the last check. Every handler of the page
 * changes this state in place, so the state is a class whose methods follow
 * the source's functions one by one.
 */
module TresEnRaya {

  /** What a cell's `innerHTML` holds. */
  datatype Mark = Empty | X | O

  /** The eight lines, in the order `verificarJugada` checks them: the three
      rows, the three columns, then the two diagonals. */
  const Lines: seq<(nat, nat, nat)> := [
    (0, 1, 2), (3, 4, 5), (6, 7, 8),
    (0, 3, 6), (1, 4, 7), (2, 5, 8),
    (0, 4, 8), (2, 4, 6)]

  /** Line `k` holds three equal marks that are not empty. */
  predicate Wins(b: seq<Mark>, k: nat)
    requires |b| == 9 && k < 8
  {
    var (p, q, r) := Lines[k];
    b[p] != Empty && b[p] == b[q] && b[p] == b[r]
  }

  /** The mark on line `k`'s first cell: the one a win on that line scores for. */
  function LineMark(b: seq<Mark>, k: nat): Mark
    requires |b| == 9 && k < 8
  {
    b[Lines[k].0]
  }

  predicate HasWinningLine(b: seq<Mark>)
    requires |b| == 9
  {
    exists k :: 0 <= k < 8 && Wins(b, k)
  }

  /** How many of the first `n` lines `m` has completed. */
  function LinesWon(b: seq<Mark>, m: Mark, n: nat): (c: nat)
    requires |b| == 9 && n <= 8
    ensures c <= n
  {
    if n == 0 then 0
    else LinesWon(b, m, n - 1) + (if Wins(b, n - 1) && LineMark(b, n - 1) == m then 1 else 0)
  }

  /** `ganador` after the checks of the first `n` lines, `g` before them: the
      mark of the last line found complete. */
  function LastWinner(b: seq<Mark>, n: nat, g: Mark): Mark
    requires |b| == 9 && n <= 8
  {
    if n == 0 then g
    else if Wins(b, n - 1) then LineMark(b, n - 1)
    else LastWinner(b, n - 1, g)
  }

  /** Some cell is still empty. */
  predicate HasEmpty(b: seq<Mark>) {
    exists i :: 0 <= i < |b| && b[i] == Empty
  }

  /** The number of empty cells. */
  function EmptyCount(b: seq<Mark>): (n: nat)
    ensures n <= |b|
  {
    if b == [] then 0 else EmptyCount(b[..|b| - 1]) + (if b[|b| - 1] == Empty then 1 else 0)
  }

  /** `marcar`: the turn's mark goes into an empty cell; an occupied cell
      keeps what it shows. */
  function MarkCell(b: seq<Mark>, i: nat, m: Mark): seq<Mark>
    requires i < |b|
  {
    if b[i] == Empty then b[i := m] else b
  }

  /** `cambiarTurno`: 'X' becomes 'O', anything else becomes 'X'. */
  function NextTurn(m: Mark): (r: Mark)
    ensures r != Empty && r != m
  {
    if m == X then O else X
  }

  // ---------------------------------------------------------------------
  // Properties of the board functions
  // ---------------------------------------------------------------------

  /** Two turn switches give back the turn, which is never empty. */
  lemma NextTurnTwice(m: Mark)
    requires m != Empty
    ensures NextTurn(NextTurn(m)) == m
  {
  }

  /** Marking changes only the clicked cell, and only when it is empty. */
  lemma MarkCellChanges(b: seq<Mark>, i: nat, m: Mark)
    requires i < |b|
    ensures |MarkCell(b, i, m)| == |b|
    ensures forall j :: 0 <= j < |b| && j != i ==> MarkCell(b, i, m)[j] == b[j]
    ensures MarkCell(b, i, m)[i] == if b[i] == Empty then m else b[i]
  {
  }

  /** Marking an empty cell uses up one empty cell; clicking an occupied one
      uses up none. */
  lemma {:induction false} MarkCellEmptyCount(b: seq<Mark>, i: nat, m: Mark)
    requires i < |b| && m != Empty
    ensures EmptyCount(MarkCell(b, i, m)) == EmptyCount(b) - (if b[i] == Empty then 1 else 0)
  {
    if b[i] == Empty {
      UpdateEmptyCount(b, i, m);
    }
  }

  lemma {:induction false} UpdateEmptyCount(b: seq<Mark>, i: nat, m: Mark)
    requires i < |b| && b[i] == Empty && m != Empty
    ensures EmptyCount(b[i := m]) == EmptyCount(b) - 1
  {
    var n := |b| - 1;
    if i < n {
      assert b[i := m][..n] == b[..n][i := m];
      UpdateEmptyCount(b[..n], i, m);
    } else {
      assert b[i := m][..n] == b[..n];
    }
  }

  /** Some cell is empty exactly when the count of empty cells is positive. */
  lemma {:induction false} HasEmptyCount(b: seq<Mark>)
    ensures HasEmpty(b) <==> EmptyCount(b) > 0
  {
    if b != [] {
      var n := |b| - 1;
      HasEmptyCount(b[..n]);
      if HasEmpty(b[..n]) {
        var i :| 0 <= i < n && b[..n][i] == Empty;
        assert b[i] == Empty;
      }
      if HasEmpty(b) && b[n] != Empty {
        var i :| 0 <= i < |b| && b[i] == Empty;
        assert b[..n][i] == Empty;
      }
    }
  }

  /** Among the first `n` lines, some is complete exactly when X or O has
      scored a line. */
  lemma {:induction false} LinesWonPositive(b: seq<Mark>, n: nat)
    requires |b| == 9 && n <= 8
    ensures LinesWon(b, X, n) + LinesWon(b, O, n) > 0 <==> exists k :: 0 <= k < n && Wins(b, k)
  {
    if n > 0 {
      LinesWonPositive(b, n - 1);
      if Wins(b, n - 1) {
        assert LineMark(b, n - 1) == X || LineMark(b, n - 1) == O;
      }
    }
  }

  /** There is a winner exactly when the check scores at least one line. */
  lemma WinnerScores(b: seq<Mark>)
    requires |b| == 9
    ensures HasWinningLine(b) <==> LinesWon(b, X, 8) + LinesWon(b, O, 8) > 0
  {
    LinesWonPositive(b, 8);
  }

  /** When some line is complete, `ganador` is the mark of a complete line. */
  lemma {:induction false} LastWinnerWon(b: seq<Mark>, n: nat, g: Mark)
    requires |b| == 9 && n <= 8
    requires exists k :: 0 <= k < n && Wins(b, k)
    ensures exists k :: 0 <= k < n && Wins(b, k) && LineMark(b, k) == LastWinner(b, n, g)
  {
    if !Wins(b, n - 1) {
      var k :| 0 <= k < n && Wins(b, k);
      assert k < n - 1;
      LastWinnerWon(b, n - 1, g);
    }
  }

  /** Checking more lines never lowers a mark's score. */
  lemma {:induction false} LinesWonMonotone(b: seq<Mark>, m: Mark, n1: nat, n2: nat)
    requires |b| == 9 && n1 <= n2 <= 8
    ensures LinesWon(b, m, n1) <= LinesWon(b, m, n2)
    decreases n2 - n1
  {
    if n1 < n2 {
      LinesWonMonotone(b, m, n1, n2 - 1);
    }
  }

  /** A mark that completes two lines at once scores two points in one
      check, since each complete line is scored on its own. */
  lemma TwoLinesScoreTwo(b: seq<Mark>, k1: nat, k2: nat, m: Mark)
    requires |b| == 9 && k1 < k2 < 8
    requires Wins(b, k1) && Wins(b, k2) && LineMark(b, k1) == m && LineMark(b, k2) == m
    ensures LinesWon(b, m, 8) >= 2
  {
    LinesWonMonotone(b, m, k1 + 1, k2);
    LinesWonMonotone(b, m, k2 + 1, 8);
  }

  /** The check of the eight lines, spelled out as the source writes it. */
  lemma WinningLineCases(b: seq<Mark>)
    requires |b| == 9
    ensures HasWinningLine(b) <==>
      Wins(b, 0) || Wins(b, 1) || Wins(b, 2) || Wins(b, 3) ||
      Wins(b, 4) || Wins(b, 5) || Wins(b, 6) || Wins(b, 7)
  {
    if HasWinningLine(b) {
      var k :| 0 <= k < 8 && Wins(b, k);
      assert k == 0 || k == 1 || k == 2 || k == 3 || k == 4 || k == 5 || k == 6 || k == 7;
    }
  }

  /** An empty board has no winner and is not full: no draw there. */
  lemma ClearedBoardOpen(b: seq<Mark>)
    requires |b| == 9 && forall i :: 0 <= i < 9 ==> b[i] == Empty
    ensures !HasWinningLine(b) && HasEmpty(b)
  {
    assert b[0] == Empty;
  }

  // ---------------------------------------------------------------------
  // The page's state and handlers
  // ---------------------------------------------------------------------

  class Tablero {
    /** The nine cells, `c1` at index 0. */
    var cells: array<Mark>
    var turno: Mark
    var puntosX: nat
    var puntosO: nat
    var ganador: Mark
    var tenemosGanador: bool
    var vacio: bool

    ghost predicate Valid()
      reads this
    {
      cells.Length == 9 && turno != Empty
    }

    /** The page as loaded: empty cells, 'X' to play, no points. */
    constructor ()
      ensures Valid() && fresh(cells)
      ensures forall i :: 0 <= i < 9 ==> cells[i] == Empty
      ensures turno == X && puntosX == 0 && puntosO == 0 && ganador == Empty
    {
      cells := new Mark[9](_ => Empty);
      turno := X;
      puntosX, puntosO := 0, 0;
      ganador := Empty;
      tenemosGanador, vacio := false, false;
    }

    /** `marcar(elemento)`. */
    method Marcar(i: nat)
      requires Valid() && i < 9
      modifies cells
      ensures cells[..] == MarkCell(old(cells[..]), i, turno)
    {
      if cells[i] == Empty {
        cells[i] := turno;
      }
    }

    /** `cambiarTurno()`. */
    method CambiarTurno()
      requires Valid()
      modifies this`turno
      ensures Valid() && turno == NextTurn(old(turno))
    {
      if turno == X {
        turno := O;
      } else {
        turno := X;
      }
    }

    /** `actualizarMarcador(elemento)`: a point for 'X', or else for 'O'. */
    method ActualizarMarcador(m: Mark)
      modifies this`puntosX, this`puntosO
      ensures puntosX == old(puntosX) + (if m == X then 1 else 0)
      ensures puntosO == old(puntosO) + (if m == X then 0 else 1)
    {
      if m == X {
        puntosX := puntosX + 1;
      } else {
        puntosO := puntosO + 1;
      }
    }

    /** `ganadorEncontrado(celdaA, celdaB, celdaC)`: the score of the mark in
        the line's first cell goes up. */
    method GanadorEncontrado(a: nat)
      requires Valid() && a < 9
      modifies this`puntosX, this`puntosO
      ensures puntosX == old(puntosX) + (if cells[a] == X then 1 else 0)
      ensures puntosO == old(puntosO) + (if cells[a] == X then 0 else 1)
    {
      ActualizarMarcador(cells[a]);
    }

    /** The scores and `ganador` once the first `n` lines of board `b` are
        checked, starting from `px`, `po` and `g`. */
    ghost predicate Checked(b: seq<Mark>, n: nat, px: nat, po: nat, g: Mark)
      requires |b| == 9 && n <= 8
      reads this
    {
      && puntosX == px + LinesWon(b, X, n)
      && puntosO == po + LinesWon(b, O, n)
      && ganador == LastWinner(b, n, g)
    }

    /** One of the eight `if` blocks of `verificarJugada`: line `k`, the
        lines before it already checked. */
    method VerificarLinea(k: nat, ghost px: nat, ghost po: nat, ghost g: Mark)
      requires Valid() && k < 8 && Checked(cells[..], k, px, po, g)
      modifies this`ganador, this`tenemosGanador, this`puntosX, this`puntosO
      ensures Checked(cells[..], k + 1, px, po, g)
      ensures tenemosGanador == (old(tenemosGanador) || Wins(cells[..], k))
    {
      var (p, q, r) := Lines[k];
      if cells[p] != Empty && cells[p] == cells[q] && cells[p] == cells[r] {
        ganador := cells[p];
        tenemosGanador := true;
        GanadorEncontrado(p);
      }
    }

    /** `verificarJugada()`: true exactly when some line is complete; every
        complete line scores one point for its mark; `ganador` is the mark
        of the last complete line; no cell changes. */
    method VerificarJugada() returns (r: bool)
      requires Valid()
      modifies this`ganador, this`tenemosGanador, this`puntosX, this`puntosO
      ensures var b := cells[..];
        && r == tenemosGanador == HasWinningLine(b)
        && puntosX == old(puntosX) + LinesWon(b, X, 8)
        && puntosO == old(puntosO) + LinesWon(b, O, 8)
        && ganador == LastWinner(b, 8, old(ganador))
    {
      ghost var px, po, g := puntosX, puntosO, ganador;
      tenemosGanador := false;
      VerificarLinea(0, px, po, g);
      VerificarLinea(1, px, po, g);
      VerificarLinea(2, px, po, g);
      VerificarLinea(3, px, po, g);
      VerificarLinea(4, px, po, g);
      VerificarLinea(5, px, po, g);
      VerificarLinea(6, px, po, g);
      VerificarLinea(7, px, po, g);
      WinningLineCases(cells[..]);
      r := tenemosGanador;
    }

    /** `vaciarTablero()`: every cell empty and 'X' to play. */
    method VaciarTablero()
      requires Valid()
      modifies cells, this`turno
      ensures Valid() && turno == X
      ensures forall i :: 0 <= i < 9 ==> cells[i] == Empty
    {
      for i := 0 to 9
        invariant forall j :: 0 <= j < i ==> cells[j] == Empty
      {
        cells[i] := Empty;
      }
      turno := X;
    }

    /** `estaVacioElTablero()`: true exactly when some cell is empty. */
    method EstaVacioElTablero() returns (r: bool)
      requires Valid()
      modifies this`vacio
      ensures r == vacio == HasEmpty(cells[..])
    {
      vacio := false;
      for i := 0 to 9
        invariant vacio == HasEmpty(cells[..i])
      {
        if cells[i] == Empty {
          vacio := true;
        }
        assert cells[..i + 1] == cells[..i] + [cells[i]];
      }
      assert cells[..9] == cells[..];
      r := vacio;
    }

    /** The click handler on cell `i`: mark, check the lines, look for an
        empty cell, declare a draw when there is neither a complete line nor
        an empty cell, and switch the turn whatever happened. The delayed
        `vaciarTablero` is a separate call. */
    method Click(i: nat) returns (empate: bool)
      requires Valid() && i < 9
      modifies cells, this`turno, this`ganador, this`tenemosGanador, this`vacio, this`puntosX, this`puntosO
      ensures Valid()
      ensures cells[..] == MarkCell(old(cells[..]), i, old(turno))
      ensures turno == NextTurn(old(turno))
      ensures empate == (!HasWinningLine(cells[..]) && !HasEmpty(cells[..]))
      ensures puntosX == old(puntosX) + LinesWon(cells[..], X, 8)
      ensures puntosO == old(puntosO) + LinesWon(cells[..], O, 8)
      ensures ganador == LastWinner(cells[..], 8, old(ganador))
      ensures tenemosGanador == HasWinningLine(cells[..])
      ensures vacio == HasEmpty(cells[..])
    {
      Marcar(i);
      var gano := VerificarJugada();
      var hayVacia := EstaVacioElTablero();
      empate := !tenemosGanador && !vacio;
      CambiarTurno();
    }
  }
}
