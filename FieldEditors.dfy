/**
 * Two preference field editors (de.sebthom.eclipse.commons.prefs.fieldeditor):
 * the digit-only input filter of `IntFieldEditor` and the entry table of
 * `EnumFieldEditor`.
 */
module FieldEditors {

  /** The characters of the regex class `\d` (without `UNICODE_CHARACTER_CLASS`): `[0-9]`. */
  const DIGITS := "0123456789"

  /**
   * `text.matches("\\d*")`: the whole text is matched by repeating the
   * class `\d`, one character per repetition.
   */
  predicate MatchesDigitStar(text: string)
  {
    text == [] || (text[0] in DIGITS && MatchesDigitStar(text[1..]))
  }

  /** The reference reading: every character lies between `'0'` and `'9'`. */
  predicate AllDigits(text: string)
  {
    forall i :: 0 <= i < |text| ==> '0' <= text[i] <= '9'
  }

  /** `\d*` accepts exactly the texts made of ASCII digits, the empty text included. */
  lemma {:induction false} MatchesDigitStarIffAllDigits(text: string)
    ensures MatchesDigitStar(text) <==> AllDigits(text)
  {
    if text != [] {
      MatchesDigitStarIffAllDigits(text[1..]);
      assert text[0] in DIGITS <==> '0' <= text[0] <= '9';
      if AllDigits(text[1..]) && '0' <= text[0] <= '9' {
        forall i | 0 <= i < |text| ensures '0' <= text[i] <= '9' {
          if i > 0 { assert text[i] == text[1..][i - 1]; }
        }
      }
      if AllDigits(text) {
        forall i | 0 <= i < |text| - 1 ensures '0' <= text[1..][i] <= '9' {
          assert text[1..][i] == text[i + 1];
        }
      }
    }
  }

  /** The part of an SWT `VerifyEvent` the listener reads and writes. */
  datatype VerifyEvent = VerifyEvent(text: string, doit: bool)

  /**
   * The verify listener `IntFieldEditor` installs on its text widget: an
   * insertion that is not all digits is vetoed; nothing is ever allowed
   * that was vetoed before.
   */
  function VerifyDigits(e: VerifyEvent): (r: VerifyEvent)
    ensures r.text == e.text
    ensures r.doit ==> e.doit
    ensures !AllDigits(e.text) ==> !r.doit
    ensures AllDigits(e.text) ==> r.doit == e.doit
  {
    MatchesDigitStarIffAllDigits(e.text);
    if !MatchesDigitStar(e.text) then e.(doit := false) else e
  }

  /** Empty text, as a deletion sends it, always passes. */
  lemma DeletionPasses(doit: bool)
    ensures VerifyDigits(VerifyEvent("", doit)).doit == doit
  {
    assert AllDigits("");
  }

  /** An enum constant as the editor sees it: its `name()`. */
  type EnumName = string

  /** The `{label, value}` entry the combo shows for one constant. */
  function Entry<T>(e: T, name: T -> EnumName, labelProvider: T -> string): seq<string>
  {
    [labelProvider(e), name(e)]
  }

  /**
   * `toEntryNamesAndValues(enumClass, enumLabelProvider)`: one
   * `{label, name}` pair per constant of `constants` (the constants in
   * declaration order), built in a loop.
   */
  method ToEntryNamesAndValues<T>(constants: seq<T>, name: T -> EnumName, labelProvider: T -> string)
    returns (pairs: seq<seq<string>>)
    ensures |pairs| == |constants|
    ensures forall i :: 0 <= i < |constants| ==>
      |pairs[i]| == 2 && pairs[i][0] == labelProvider(constants[i]) && pairs[i][1] == name(constants[i])
  {
    pairs := [];
    for i := 0 to |constants|
      invariant |pairs| == i
      invariant forall k :: 0 <= k < i ==> pairs[k] == Entry(constants[k], name, labelProvider)
    {
      pairs := pairs + [Entry(constants[i], name, labelProvider)];
    }
  }

  /**
   * The table of the constructor without a label provider (`Enum::name`):
   * every entry is shown by its own value, and distinct constant names give
   * distinct entries.
   */
  method NamedEntries<T>(constants: seq<T>, name: T -> EnumName) returns (pairs: seq<seq<string>>)
    ensures |pairs| == |constants|
    ensures forall i :: 0 <= i < |pairs| ==> |pairs[i]| == 2 && pairs[i][0] == pairs[i][1] == name(constants[i])
    ensures (forall i, j :: 0 <= i < j < |constants| ==> name(constants[i]) != name(constants[j])) ==>
      forall i, j :: 0 <= i < j < |pairs| ==> pairs[i] != pairs[j]
  {
    pairs := ToEntryNamesAndValues(constants, name, name);
    forall i, j | 0 <= i < j < |pairs| && name(constants[i]) != name(constants[j])
      ensures pairs[i] != pairs[j]
    {
      assert pairs[i][1] != pairs[j][1];
    }
  }
}
