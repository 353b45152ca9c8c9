/** The line editor a user sees: text on either side of a cursor, and nothing else. */
module Editing {
  import opened Document
  import opened Text
  import opened Tapes

  datatype Editor = Editor(left: string, right: string) {
    function Line(): string {
      left + right
    }
  }

  const EMPTY: Editor := Editor([], [])

  datatype Edit =
    | Type(c: char)
    | Erase(count: nat)
    | EraseForward(count: nat)
    | Go(direction: Direction)

  function Apply(e: Editor, edit: Edit): Editor {
    match edit
    case Type(c) =>
      if |e.left| + |e.right| >= INPUT_MAX then e else Editor(e.left + [c], e.right)
    case Erase(count) =>
      Editor(if count >= |e.left| then [] else e.left[..|e.left| - count], e.right)
    case EraseForward(count) =>
      Editor(e.left, if count >= |e.right| then [] else e.right[count..])
    case Go(Left) =>
      if e.left == [] then e
      else Editor(e.left[..|e.left| - 1], [e.left[|e.left| - 1]] + e.right)
    case Go(Right) =>
      if e.right == [] then e
      else Editor(e.left + [e.right[0]], e.right[1..])
    case Go(_) => e
  }

  function EditRun(e: Editor, edits: seq<Edit>): Editor
    decreases |edits|
  {
    if edits == [] then e else EditRun(Apply(e, edits[0]), edits[1..])
  }

  // ---- The screen as an editor ----

  function EditorOf(d: Doc): Editor
    requires d.cursor <= |d.text|
  {
    Editor(d.text[..d.cursor], d.text[d.cursor..])
  }

  /** The terminal function behind each edit. */
  function DocApply(d: Doc, edit: Edit): Doc
    requires d.cursor <= |d.text|
  {
    match edit
    case Type(c) => Insert(d, c)
    case Erase(count) => Backspace(d, count)
    case EraseForward(count) => Delete(d, count)
    case Go(direction) => Move(d, direction)
  }

  /** Newlines are not typed into the input. */
  predicate Typable(edit: Edit) {
    edit.Type? ==> edit.c != '\n'
  }

  /** A picture that is up to date stays so, and typing a character brings one up to date. */
  predicate KeepsPicture(d: Doc, e: Doc) {
    (d.drawn ==> e.drawn) && (d.placed ==> e.placed)
  }

  lemma ApplyRefines(d: Doc, edit: Edit)
    requires Editable(d) && Typable(edit)
    ensures
      var e := DocApply(d, edit);
      && Editable(e)
      && EditorOf(e) == Apply(EditorOf(d), edit)
      && e.before == d.before && e.window.H == d.window.H && d.window.dropped <= e.window.dropped
      && KeepsPicture(d, e)
      && (e.text != d.text ==> e.drawn && e.placed)
  {
    match edit {
      case Type(c) => InsertOk(d, c);
      case Erase(count) => BackspaceOk(d, count);
      case EraseForward(count) => DeleteOk(d, count);
      case Go(direction) => MoveOk(d, direction);
    }
    ApplyEdits(d, edit);
    ApplyFrame(d, edit);
    hide Apply, DocApply, DocOk, Editable, EditorOf;
  }

  lemma ApplyEdits(d: Doc, edit: Edit)
    requires d.editing && d.cursor <= |d.text| <= INPUT_MAX
    ensures DocApply(d, edit).cursor <= |DocApply(d, edit).text|
    ensures EditorOf(DocApply(d, edit)) == Apply(EditorOf(d), edit)
  {
    match edit
    case Type(c) => TypeEdits(d, c);
    case Erase(count) => EraseEdits(d, count);
    case EraseForward(count) => EraseForwardEdits(d, count);
    case Go(direction) => GoEdits(d, direction);
  }

  lemma TypeEdits(d: Doc, c: char)
    requires d.editing && d.cursor <= |d.text| <= INPUT_MAX
    ensures EditorOf(Insert(d, c)) == Apply(EditorOf(d), Type(c))
  {
    var e := Insert(d, c);
    if |d.text| < INPUT_MAX {
      assert e.text[..e.cursor] == d.text[..d.cursor] + [c];
      assert e.text[e.cursor..] == d.text[d.cursor..];
    }
  }

  lemma EraseEdits(d: Doc, count: nat)
    requires d.editing && d.cursor <= |d.text|
    ensures EditorOf(Backspace(d, count)) == Apply(EditorOf(d), Erase(count))
  {
    var e := Backspace(d, count);
    assert e.text[..e.cursor] == d.text[..d.cursor][..d.cursor - Min(count, d.cursor)];
    assert e.text[e.cursor..] == d.text[d.cursor..];
  }

  lemma EraseForwardEdits(d: Doc, count: nat)
    requires d.editing && d.cursor <= |d.text|
    ensures EditorOf(Delete(d, count)) == Apply(EditorOf(d), EraseForward(count))
  {
    var e := Delete(d, count);
    assert e.text[..e.cursor] == d.text[..d.cursor];
    assert e.text[e.cursor..] == d.text[d.cursor..][Min(count, |d.text| - d.cursor)..];
  }

  lemma GoEdits(d: Doc, direction: Direction)
    requires d.editing && d.cursor <= |d.text|
    ensures Move(d, direction).cursor <= |d.text| == |Move(d, direction).text|
    ensures EditorOf(Move(d, direction)) == Apply(EditorOf(d), Go(direction))
  {
    hide Window.Reach;
    if direction == Left && d.cursor > 0 {
      assert d.text[..d.cursor - 1] == d.text[..d.cursor][..d.cursor - 1];
      assert d.text[d.cursor - 1..] == [d.text[d.cursor - 1]] + d.text[d.cursor..];
    } else if direction == Right && d.cursor < |d.text| {
      assert d.text[..d.cursor + 1] == d.text[..d.cursor] + [d.text[d.cursor]];
      assert d.text[d.cursor + 1..] == d.text[d.cursor..][1..];
    }
  }

  lemma ApplyFrame(d: Doc, edit: Edit)
    requires d.editing && d.cursor <= |d.text|
    ensures
      var e := DocApply(d, edit);
      && e.before == d.before && e.window.H == d.window.H && d.window.dropped <= e.window.dropped
      && KeepsPicture(d, e)
      && (e.text != d.text ==> e.drawn && e.placed)
  {
    if edit.Erase? && d.cursor - Min(edit.count, d.cursor) == |d.text| {
      assert d.text[..d.cursor] == d.text;
    }
  }

  function DocRun(d: Doc, edits: seq<Edit>): Doc
    requires Editable(d) && forall e | e in edits :: Typable(e)
    decreases |edits|
  {
    if edits == [] then d
    else
      assert Typable(edits[0]);
      ApplyRefines(d, edits[0]);
      DocRun(DocApply(d, edits[0]), edits[1..])
  }

  /**
   Any run of edits, moves and scrolls, of any length and whatever rows are dropped meanwhile:
   the input is what the simple editor has, what was printed before it is untouched, and the
   picture stays up to date.
   */
  lemma {:induction false} RunRefines(d: Doc, edits: seq<Edit>)
    requires Editable(d) && forall e | e in edits :: Typable(e)
    ensures
      var r := DocRun(d, edits);
      && Editable(r)
      && EditorOf(r) == EditRun(EditorOf(d), edits)
      && r.text == EditRun(EditorOf(d), edits).Line()
      && r.before == d.before
      && KeepsPicture(d, r)
    decreases |edits|
  {
    if edits != [] {
      assert Typable(edits[0]);
      ApplyRefines(d, edits[0]);
      RunRefines(DocApply(d, edits[0]), edits[1..]);
    } else {
      assert d.text[..d.cursor] + d.text[d.cursor..] == d.text;
    }
  }

  // ---- What the editor promises ----

  /** The cap holds in every run, and a character is refused only at the cap. */
  lemma {:induction false} RunCapped(e: Editor, edits: seq<Edit>)
    requires |e.Line()| <= INPUT_MAX
    ensures |EditRun(e, edits).Line()| <= INPUT_MAX
    decreases |edits|
  {
    if edits != [] {
      RunCapped(Apply(e, edits[0]), edits[1..]);
    }
  }

  /** Erasing what was just typed undoes it, wherever the cursor is. */
  lemma TypeThenErase(e: Editor, c: char)
    requires |e.Line()| < INPUT_MAX
    ensures Apply(Apply(e, Type(c)), Erase(1)) == e
    ensures Apply(Apply(Apply(e, Type(c)), Go(Left)), EraseForward(1)) == e
  {
  }

  /** Moving off a character and back restores the cursor, and erasing ahead is erasing behind it. */
  lemma MovesCancel(e: Editor)
    ensures e.right != [] ==> Apply(Apply(e, Go(Right)), Go(Left)) == e
    ensures e.left != [] ==> Apply(Apply(e, Go(Left)), Go(Right)) == e
    ensures e.right != [] ==> Apply(Apply(e, Go(Right)), Erase(1)) == Apply(e, EraseForward(1))
  {
  }
}
