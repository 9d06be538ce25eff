/**
 * The earlier click game (javascript/juego-2D/juego2D.js): a countdown from
 * 20 that stops at zero, points that grow by the time left on each click of
 * the piece, and a piece whose width and height step by 20 pixels between
 * 30 and 70, with a label naming the level. The handlers change the page's
 * globals and the piece's style in place, so the state is a class; timer
 * ticks are explicit calls of `CuentaAtras`.
 */
module Juego2D {

  /** The piece's `offsetWidth` and `offsetHeight` in pixels. */
  datatype Size = Size(ancho: int, alto: int)

  /** The sizes the level table of the source lists: square, 30, 50 or 70. */
  predicate Standard(s: Size) {
    s.ancho == s.alto && (s.ancho == 30 || s.ancho == 50 || s.ancho == 70)
  }

  /** The size `subirDificultad` leaves: 20 pixels less each way when both
      sides exceed 30, otherwise unchanged. */
  function Shrink(s: Size): Size {
    if s.ancho > 30 && s.alto > 30 then Size(s.ancho - 20, s.alto - 20) else s
  }

  /** The size `bajarDificultad` leaves: 20 pixels more each way when both
      sides are below 70, otherwise unchanged. */
  function Grow(s: Size): Size {
    if s.ancho < 70 && s.alto < 70 then Size(s.ancho + 20, s.alto + 20) else s
  }

  /** The label after shrinking to width `w`. */
  function ShrunkLabel(w: int): string {
    if w == 50 then "normal" else "difícil"
  }

  /** The label after growing to width `w`. */
  function GrownLabel(w: int): string {
    if w == 50 then "normal" else "fácil"
  }

  /** Both steps keep a standard size standard: 70 to 50 to 30 and back. */
  lemma StepsKeepStandard(s: Size)
    requires Standard(s)
    ensures Standard(Shrink(s)) && Standard(Grow(s))
    ensures Shrink(s).ancho == if s.ancho == 30 then 30 else s.ancho - 20
    ensures Grow(s).ancho == if s.ancho == 70 then 70 else s.ancho + 20
  {
  }

  /** Growing undoes shrinking whenever shrinking changed something and the
      shrunk size is small enough to grow: in particular from 50 and 70. */
  lemma GrowAfterShrink(s: Size)
    requires 30 < s.ancho < 90 && 30 < s.alto < 90
    ensures Grow(Shrink(s)) == s
  {
  }

  /** Shrinking undoes growing in the same way: in particular from 30 and 50. */
  lemma ShrinkAfterGrow(s: Size)
    requires 10 < s.ancho < 70 && 10 < s.alto < 70
    ensures Shrink(Grow(s)) == s
  {
  }

  /** Standard sizes: a step down the levels is undone by a step up,
      except at the smallest size, where a step down changes nothing. */
  lemma StandardRoundTrip(s: Size)
    requires Standard(s)
    ensures s.ancho > 30 ==> Grow(Shrink(s)) == s
    ensures s.ancho == 30 ==> Shrink(s) == s
  {
    if s.ancho > 30 {
      GrowAfterShrink(s);
    }
  }

  /** Repeated shrinking never takes a side below 11 pixels, and never
      below 30 from a standard size. */
  lemma ShrinkFloor(s: Size)
    requires s.ancho > 10 && s.alto > 10
    ensures Shrink(s).ancho > 10 && Shrink(s).alto > 10
    ensures Standard(s) ==> Shrink(s).ancho >= 30
  {
  }

  class Juego {
    var tiempo: int
    var puntos: int
    var ancho: int
    var alto: int
    /** What `DIFICULTAD.innerHTML` shows. */
    var dificultad: string

    /** The countdown stays in 0..20 and the points never go negative. */
    ghost predicate Valid()
      reads this
    {
      0 <= tiempo <= 20 && puntos >= 0
    }

    /** The page as loaded; the piece's starting size and label come from
        the page's style sheet and markup. */
    constructor (ancho0: int, alto0: int, etiqueta: string)
      ensures Valid() && tiempo == 20 && puntos == 0
      ensures ancho == ancho0 && alto == alto0 && dificultad == etiqueta
    {
      tiempo, puntos := 20, 0;
      ancho, alto := ancho0, alto0;
      dificultad := etiqueta;
    }

    /** `cuentaAtras()`: one second less while time is left. */
    method CuentaAtras()
      requires Valid()
      modifies this`tiempo
      ensures Valid()
      ensures tiempo == if old(tiempo) > 0 then old(tiempo) - 1 else old(tiempo)
    {
      if tiempo > 0 {
        tiempo := tiempo - 1;
      }
    }

    /** `subirDificultad()`: a smaller piece, when it can shrink, and the
        label of its new size. */
    method SubirDificultad()
      modifies this`ancho, this`alto, this`dificultad
      ensures Size(ancho, alto) == Shrink(old(Size(ancho, alto)))
      ensures dificultad == if old(ancho) > 30 && old(alto) > 30 then ShrunkLabel(ancho) else old(dificultad)
    {
      var anchuraFicha, alturaFicha := ancho, alto;
      if anchuraFicha > 30 && alturaFicha > 30 {
        ancho := anchuraFicha - 20;
        alto := alturaFicha - 20;
        if ancho == 50 {
          dificultad := "normal";
        } else {
          dificultad := "difícil";
        }
      }
    }

    /** `bajarDificultad()`: a larger piece, when it can grow, and the label
        of its new size. */
    method BajarDificultad()
      modifies this`ancho, this`alto, this`dificultad
      ensures Size(ancho, alto) == Grow(old(Size(ancho, alto)))
      ensures dificultad == if old(ancho) < 70 && old(alto) < 70 then GrownLabel(ancho) else old(dificultad)
    {
      var anchuraFicha, alturaFicha := ancho, alto;
      if anchuraFicha < 70 && alturaFicha < 70 {
        ancho := anchuraFicha + 20;
        alto := alturaFicha + 20;
        if ancho == 50 {
          dificultad := "normal";
        } else {
          dificultad := "fácil";
        }
      }
    }

    /** `fichaClick()`: the time left is scored, the countdown restarts at
        20, and the piece gets harder to hit. */
    method FichaClick()
      requires Valid()
      modifies this`puntos, this`tiempo, this`ancho, this`alto, this`dificultad
      ensures Valid()
      ensures puntos == old(puntos) + old(tiempo) && tiempo == 20
      ensures Size(ancho, alto) == Shrink(old(Size(ancho, alto)))
      ensures dificultad == if old(ancho) > 30 && old(alto) > 30 then ShrunkLabel(ancho) else old(dificultad)
    {
      puntos := puntos + tiempo;
      tiempo := 20;
      SubirDificultad();
    }
  }
}
