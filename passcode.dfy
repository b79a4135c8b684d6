/** The four-position passcode entry buffer shared by the lock screen of
    src/components/Dashboard.tsx and by src/components/SecretCinema.tsx. */
module Passcode {
  import opened Wrappers
  import opened Text

  /** `['', '', '', '']`. */
  const Blank: seq<string> := ["", "", "", ""]

  /** Four positions, each empty or one decimal digit. */
  predicate WellFormed(digits: seq<string>) {
    |digits| == 4 && forall k :: 0 <= k < 4 ==> |digits[k]| <= 1 && AllDigits(digits[k])
  }

  /** `handleInput(index, value)`: a value that fails `/^\d*$/` is ignored;
      otherwise only position `index` changes, to the value's last character. */
  function EnterDigit(digits: seq<string>, index: nat, value: string): (r: Option<seq<string>>)
    requires index < |digits|
    ensures r.None? <==> !AllDigits(value)
    ensures r.Some? ==> |r.value| == |digits| && r.value[index] == LastChar(value) &&
                        forall k :: 0 <= k < |digits| && k != index ==> r.value[k] == digits[k]
  {
    if !AllDigits(value) then None else Some(digits[index := LastChar(value)])
  }

  /** Entry keeps every position a single digit or empty. */
  lemma EnterKeepsWellFormed(digits: seq<string>, index: nat, value: string)
    requires WellFormed(digits) && index < 4 && AllDigits(value)
    ensures WellFormed(EnterDigit(digits, index, value).value)
  {
    var r := EnterDigit(digits, index, value).value;
    if value != "" {
      assert r[index][0] == value[|value| - 1];
    }
  }

  /** `passcode.every(digit => digit !== '')`. */
  predicate Complete(digits: seq<string>)
    ensures Complete(digits) ==> |Joined(digits)| >= |digits|
  {
    forall k :: 0 <= k < |digits| ==> digits[k] != ""
  }

  /** `passcode.join('')`: boxes of digits join to digits, a filled box adds at least one character. */
  function Joined(digits: seq<string>): (s: string)
    ensures (forall k :: 0 <= k < |digits| ==> AllDigits(digits[k])) ==> AllDigits(s)
    ensures (forall k :: 0 <= k < |digits| ==> digits[k] != "") ==> |s| >= |digits|
    ensures (forall k :: 0 <= k < |digits| ==> digits[k] == "") ==> s == ""
    decreases |digits|
  {
    if digits == [] then ""
    else
      var rest := Joined(digits[1..]);
      assert forall k :: 0 <= k < |digits[1..]| ==> digits[1..][k] == digits[k + 1];
      digits[0] + rest
  }

  /** A complete, well-formed buffer joins to a four-digit code. */
  lemma CompleteJoinsToFourDigits(digits: seq<string>)
    requires WellFormed(digits) && Complete(digits)
    ensures |Joined(digits)| == 4 && AllDigits(Joined(digits))
    ensures Joined(digits) == [digits[0][0], digits[1][0], digits[2][0], digits[3][0]]
  {
    assert |digits[0]| == 1 && |digits[1]| == 1 && |digits[2]| == 1 && |digits[3]| == 1;
    assert digits[0] == [digits[0][0]] && digits[1] == [digits[1][0]];
    assert digits[2] == [digits[2][0]] && digits[3] == [digits[3][0]];
    assert digits[3..][1..] == [];
    assert Joined(digits[3..]) == digits[3];
    assert digits[2..][1..] == digits[3..];
    assert Joined(digits[2..]) == digits[2] + digits[3];
    assert digits[1..][1..] == digits[2..];
    assert Joined(digits[1..]) == digits[1] + digits[2] + digits[3];
    assert Joined(digits) == digits[0] + digits[1] + digits[2] + digits[3];
  }

  /** Typing four digits into a blank buffer, in order, completes it with
      exactly those digits. */
  lemma TypingFourDigits(c0: char, c1: char, c2: char, c3: char)
    requires IsDigit(c0) && IsDigit(c1) && IsDigit(c2) && IsDigit(c3)
    ensures var b1 := EnterDigit(Blank, 0, [c0]).value;
            var b2 := EnterDigit(b1, 1, [c1]).value;
            var b3 := EnterDigit(b2, 2, [c2]).value;
            var b4 := EnterDigit(b3, 3, [c3]).value;
            WellFormed(b4) && Complete(b4) && Joined(b4) == [c0, c1, c2, c3]
  {
    var b1 := EnterDigit(Blank, 0, [c0]).value;
    var b2 := EnterDigit(b1, 1, [c1]).value;
    var b3 := EnterDigit(b2, 2, [c2]).value;
    var b4 := EnterDigit(b3, 3, [c3]).value;
    assert b4 == [[c0], [c1], [c2], [c3]];
    CompleteJoinsToFourDigits(b4);
  }

  /** The blank buffer is not complete, so a reset never re-submits by itself. */
  lemma BlankNotComplete()
    ensures WellFormed(Blank) && !Complete(Blank)
  {
    assert Blank[0] == "";
  }

  /** Where `handleInput` moves the focus: to the next box after a non-empty value, up to the fourth. */
  function NextFocus(index: nat, value: string): (r: Option<nat>)
    ensures r.Some? <==> value != "" && index < 3
    ensures r.Some? ==> r.value == index + 1 && r.value < 4
  {
    if value != "" && index < 3 then Some(index + 1) else None
  }

  /** The cinema's `handleKeyDown`: Backspace on an empty box moves back, but never before the first box. */
  function BackspaceFocus(digits: seq<string>, index: nat, key: string): (r: Option<nat>)
    requires index < |digits|
    ensures r.Some? <==> key == "Backspace" && digits[index] == "" && index > 0
    ensures r.Some? ==> r.value + 1 == index
  {
    if key == "Backspace" && digits[index] == "" && index > 0 then Some(index - 1) else None
  }
}
