/** The ten screens, of which one is displayed. A screen is set up when it is first shown. */
module Screens {
  import opened Document
  import opened Options

  const SCREEN_COUNT: nat := 10

  /** The height the source computes: 25 visible rows and 35 - 25 more. */
  const TERMINAL_HEIGHT: nat := 25 + (35 - 25)

  /** Background in the high four bits, foreground in the low four. */
  const SCREEN_COLORS: seq<nat> := [0x07, 0x1F, 0x76, 0xF0, 0x30, 0x4E, 0x5F, 0x6F, 0x0A, 0x0C]

  datatype Term = Term(docs: seq<Option<Doc>>, index: nat) {

    predicate Shaped() {
      |docs| == SCREEN_COUNT && index < SCREEN_COUNT && docs[index].Some?
    }

    predicate Ok() {
      && Shaped()
      && forall i | 0 <= i < SCREEN_COUNT && docs[i].Some? :: DocOk(docs[i].value)
    }

    function Current(): Doc
      requires Shaped()
    {
      docs[index].value
    }

    /** The displayed screen becomes d; the others stay as they are. */
    function With(d: Doc): (t: Term)
      requires Shaped()
      ensures t.Shaped() && t.Current() == d && t.index == index
    {
      this.(docs := docs[index := Some(d)])
    }

    /** Shows screen i, setting it up if it was never shown; an index out of range is ignored. */
    function Switch(H: nat, i: nat): (t: Term)
      requires Shaped()
      ensures t.Shaped()
    {
      if i >= SCREEN_COUNT then this
      else
        var d := if docs[i].None? then Fresh(H) else docs[i].value;
        Term(docs[i := Some(Redraw(d))], i)
    }
  }

  /** The terminal after boot: only the first screen is set up. */
  function BootTerm(H: nat): Term {
    Term([Some(Fresh(H)), None, None, None, None, None, None, None, None, None], 0)
  }

  lemma FreshOk(H: nat)
    requires 25 <= H <= 256
    ensures Editable(Fresh(H)) && Fresh(H).before == "$ " && Fresh(H).text == []
    ensures Fresh(H).drawn && Fresh(H).placed && Fresh(H).window.H == H
  {
    PromptOk(Clear(H));
  }

  /**
   Going to screen j and back restores everything of the screen left, redraws it, and
   touches no screen but j; j itself changes only by being set up, once.
   */
  lemma SwitchAwayAndBack(t: Term, H: nat, j: nat)
    requires t.Ok() && 25 <= H <= 256
    ensures
      var r := t.Switch(H, j).Switch(H, t.index);
      && r.index == t.index
      && r.docs[r.index] == Some(Redraw(t.Current()))
      && (forall i | 0 <= i < SCREEN_COUNT && i != t.index && i != j :: r.docs[i] == t.docs[i])
      && (j < SCREEN_COUNT && j != t.index ==>
            r.docs[j] == Some(Redraw(if t.docs[j].Some? then t.docs[j].value else Fresh(H))))
      && r.Switch(H, j).Switch(H, t.index) == r
  {
    FreshOk(H);
  }
}
