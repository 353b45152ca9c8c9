/** From scancodes to keys: modifiers, layouts, and what each key asks for. */
module Keyboard {
  import opened Text
  import opened Document
  import opened Editing
  import opened Screens

  datatype Layout = Qwerty | Azerty

  const KEY_CAPS: nat := 0x3A
  const KEY_BACKSPACE: nat := 0x0E
  const KEY_ENTER: nat := 0x1C
  const KEY_DELETE: nat := 0x53
  const KEY_LEFT: nat := 0x4B
  const KEY_RIGHT: nat := 0x4D
  const KEY_UP: nat := 0x48
  const KEY_DOWN: nat := 0x50
  const KEY_CTRL_PRESSED: nat := 0x1D
  const KEY_CTRL_RELEASED: nat := 0x9D
  const KEY_LEFT_SHIFT_PRESS: nat := 0x2A
  const KEY_LEFT_SHIFT_RELEASE: nat := 0xAA
  const KEY_RIGHT_SHIFT_PRESS: nat := 0x36
  const KEY_RIGHT_SHIFT_RELEASE: nat := 0xB6
  const SCANCODE_MAP_SIZE: nat := 128

  datatype Keys = Keys(lock: bool, ctrl: bool, leftShift: bool, rightShift: bool, layout: Layout)

  /** The keys of a row of the keyboard that starts at scancode first; NUL elsewhere. */
  function InRow(row: string, first: nat, scancode: nat): char {
    if first <= scancode < first + |row| then row[scancode - first] else '\0'
  }

  function Either(c: char, d: char): char {
    if c != '\0' then c else d
  }

  function Plain(layout: Layout, scancode: nat): char {
    match layout
    case Qwerty =>
      Either(InRow("1234567890-=", 0x02, scancode),
      Either(InRow("qwertyuiop[]", 0x10, scancode),
      Either(InRow("asdfghjkl;'`", 0x1E, scancode),
      Either(InRow("\\zxcvbnm,./", 0x2B, scancode),
             InRow(" ", 0x39, scancode)))))
    case Azerty =>
      Either(InRow("&\U{82}\"'(-\U{8A}_\U{87}\U{85})=", 0x02, scancode),
      Either(InRow("azertyuiop^$", 0x10, scancode),
      Either(InRow("qsdfghjklm\U{97}\U{FD}", 0x1E, scancode),
      Either(InRow("*wxcvbn,;:!", 0x2B, scancode),
      Either(InRow(" ", 0x39, scancode),
             InRow("<", 0x56, scancode))))))
  }

  function Upper(layout: Layout, scancode: nat): char {
    match layout
    case Qwerty =>
      Either(InRow("!@#$%^&*()_+", 0x02, scancode),
      Either(InRow("{}", 0x1A, scancode),
      Either(InRow(":\"~", 0x27, scancode),
      Either(InRow("|", 0x2B, scancode),
             InRow("<>?", 0x33, scancode)))))
    case Azerty =>
      Either(InRow("1234567890\U{F8}+", 0x02, scancode),
      Either(InRow("\U{9C}", 0x1B, scancode),
      Either(InRow("%", 0x28, scancode),
      Either(InRow("\U{E6}", 0x2B, scancode),
      Either(InRow("?./\U{15}", 0x32, scancode),
             InRow(">", 0x56, scancode))))))
  }

  function ToUpper(c: char): char {
    if 'a' <= c <= 'z' then c - 32 as char else c
  }

  /** The character of a key, NUL for the keys that have none. */
  function CharOf(keys: Keys, scancode: nat): char {
    var c := Plain(keys.layout, scancode);
    if keys.lock == (keys.leftShift || keys.rightShift) then c
    else if Upper(keys.layout, scancode) != '\0' then Upper(keys.layout, scancode)
    else ToUpper(c)
  }

  /** What a scancode asks for, besides its effect on the modifiers. */
  datatype Action = Nothing | Show(screen: nat) | Do(edit: Edit) | Enter

  function Special(scancode: nat): Action {
    if scancode == KEY_ENTER then Enter
    else if scancode == KEY_BACKSPACE then Do(Erase(1))
    else if scancode == KEY_DELETE then Do(EraseForward(1))
    else if scancode == KEY_UP then Do(Go(Up))
    else if scancode == KEY_DOWN then Do(Go(Down))
    else if scancode == KEY_LEFT then Do(Go(Left))
    else if scancode == KEY_RIGHT then Do(Go(Right))
    else Nothing
  }

  function Decode(keys: Keys, scancode: nat, reading: bool): (Keys, Action) {
    if scancode == KEY_LEFT_SHIFT_PRESS then (keys.(leftShift := true), Nothing)
    else if scancode == KEY_LEFT_SHIFT_RELEASE then (keys.(leftShift := false), Nothing)
    else if scancode == KEY_RIGHT_SHIFT_PRESS then (keys.(rightShift := true), Nothing)
    else if scancode == KEY_RIGHT_SHIFT_RELEASE then (keys.(rightShift := false), Nothing)
    else if scancode == KEY_CTRL_PRESSED then (keys.(ctrl := true), Nothing)
    else if scancode == KEY_CTRL_RELEASED then (keys.(ctrl := false), Nothing)
    else if scancode >= SCANCODE_MAP_SIZE then (keys, Nothing)
    else
      var c := CharOf(keys, scancode);
      if keys.ctrl then
        (keys, if !reading && IsDigit(c) then Show((c as int - '1' as int + 10) % 10) else Nothing)
      else if c != '\0' then (keys, Do(Type(c)))
      else if scancode == KEY_CAPS then (keys.(lock := !keys.lock), Nothing)
      else (keys, Special(scancode))
  }

  /**
   No key types a newline or a NUL; the keys with a function of their own have no character,
   in any layout and whatever the modifiers; and a screen key names one of the ten screens.
   */
  lemma DecodeSound(keys: Keys, scancode: nat, reading: bool)
    ensures
      var action := Decode(keys, scancode, reading).1;
      && (action.Do? ==> Typable(action.edit))
      && (action.Do? && action.edit.Type? ==> action.edit.c != '\0')
      && (action.Show? ==> !reading && action.screen < SCREEN_COUNT)
  {
    hide Plain, Upper;
    if scancode < SCANCODE_MAP_SIZE {
      CharsPrint(keys.layout, scancode);
    }
  }

  lemma CharsPrint(layout: Layout, scancode: nat)
    ensures Plain(layout, scancode) != '\n' && Upper(layout, scancode) != '\n'
  {
    match layout
    case Qwerty =>
      NotInRow("1234567890-=", 0x02, scancode);
      NotInRow("qwertyuiop[]", 0x10, scancode);
      NotInRow("asdfghjkl;'`", 0x1E, scancode);
      NotInRow("\\zxcvbnm,./", 0x2B, scancode);
      NotInRow("!@#$%^&*()_+", 0x02, scancode);
      hide InRow;
    case Azerty =>
      NotInRow("&\U{82}\"'(-\U{8A}_\U{87}\U{85})=", 0x02, scancode);
      NotInRow("azertyuiop^$", 0x10, scancode);
      NotInRow("qsdfghjklm\U{97}\U{FD}", 0x1E, scancode);
      NotInRow("*wxcvbn,;:!", 0x2B, scancode);
      NotInRow("1234567890\U{F8}+", 0x02, scancode);
      hide InRow;
  }

  lemma NotInRow(row: string, first: nat, scancode: nat)
    requires '\n' !in row
    ensures InRow(row, first, scancode) != '\n'
  {
  }

  lemma SpecialKeysHaveNoChar(keys: Keys, scancode: nat)
    requires scancode == KEY_CAPS || Special(scancode) != Nothing
    ensures CharOf(keys, scancode) == '\0'
    ensures !keys.ctrl && scancode != KEY_CAPS ==> Decode(keys, scancode, false) == (keys, Special(scancode))
  {
  }

  /** A letter key types its letter, a capital exactly when Caps Lock and Shift disagree. */
  lemma CaseOfLetters(keys: Keys, scancode: nat)
    requires 'a' <= Plain(keys.layout, scancode) <= 'z'
    ensures
      var c := CharOf(keys, scancode);
      && ToUpper(c) == ToUpper(Plain(keys.layout, scancode))
      && ('A' <= c <= 'Z' <==> keys.lock != (keys.leftShift || keys.rightShift))
      && ('a' <= c <= 'z' <==> keys.lock == (keys.leftShift || keys.rightShift))
  {
    LettersHaveNoUpper(keys.layout, scancode);
    hide Plain, Upper;
  }

  lemma LettersHaveNoUpper(layout: Layout, scancode: nat)
    requires 'a' <= Plain(layout, scancode) <= 'z'
    ensures Upper(layout, scancode) == '\0'
  {
  }

  /**
   With Ctrl held, a key of the digit row shows its screen, in keyboard row order, exactly when
   it types a digit, which in Azerty takes Shift or Caps Lock; and none while a read is pending.
   */
  lemma DigitKeysShowScreens(keys: Keys, digit: nat, reading: bool)
    requires keys.ctrl && digit < 10
    ensures Decode(keys, 0x02 + digit, reading) ==
      (keys, if !reading && (keys.layout == Qwerty) == (keys.lock == (keys.leftShift || keys.rightShift))
             then Show(digit) else Nothing)
  {
    DigitRow(digit);
    hide Plain, Upper;
  }

  lemma DigitRow(digit: nat)
    requires digit < 10
    ensures
      var c := if digit == 9 then '0' else ('1' as int + digit) as char;
      && Plain(Qwerty, 0x02 + digit) == c == Upper(Azerty, 0x02 + digit)
      && Upper(Qwerty, 0x02 + digit) != '\0' && !IsDigit(Upper(Qwerty, 0x02 + digit))
      && !IsDigit(ToUpper(Plain(Azerty, 0x02 + digit))) && !IsDigit(Plain(Azerty, 0x02 + digit))
  {
    var row := "1234567890";
    assert row[0] == '1' && row[1] == '2' && row[2] == '3' && row[3] == '4' && row[4] == '5';
    assert row[5] == '6' && row[6] == '7' && row[7] == '8' && row[8] == '9' && row[9] == '0';
  }

  // ---- The modifiers over a run ----

  /** Whether a key is down: what the last of its press and release codes says. */
  predicate Held(before: bool, press: nat, release: nat, scancodes: seq<nat>) {
    if scancodes == [] then before
    else
      var last := |scancodes| - 1;
      scancodes[last] == press
      || (scancodes[last] != release && Held(before, press, release, scancodes[..last]))
  }

  /** Whether Caps Lock was pressed an odd number of times while Ctrl was up. */
  predicate CapsOdd(ctrl: bool, scancodes: seq<nat>) {
    if scancodes == [] then false
    else
      var last := |scancodes| - 1;
      var toggles := scancodes[last] == 0x3A && !Held(ctrl, 0x1D, 0x9D, scancodes[..last]);
      CapsOdd(ctrl, scancodes[..last]) != toggles
  }

  /** What one scancode does to the modifiers. */
  lemma OneKey(keys: Keys, scancode: nat, reading: bool)
    ensures
      var r := Decode(keys, scancode, reading).0;
      && (r.ctrl <==> scancode == KEY_CTRL_PRESSED || (scancode != KEY_CTRL_RELEASED && keys.ctrl))
      && (r.leftShift <==> scancode == KEY_LEFT_SHIFT_PRESS || (scancode != KEY_LEFT_SHIFT_RELEASE && keys.leftShift))
      && (r.rightShift <==>
            scancode == KEY_RIGHT_SHIFT_PRESS || (scancode != KEY_RIGHT_SHIFT_RELEASE && keys.rightShift))
      && (r.lock != keys.lock <==> scancode == KEY_CAPS && !keys.ctrl)
      && r.layout == keys.layout
  {
    SpecialKeysHaveNoChar(keys, KEY_CAPS);
    hide CharOf, Special;
  }
}
