/**
 * The language-code validator that the `history` command uses as the value
 * parser of its `--language` option: a code is accepted when it is two ASCII
 * letters, and the accepted value is its ASCII-lowercase form. The code is not
 * looked up in the ISO 639-1 registry; only its shape is checked.
 */
module LangCode {

  /** The outcome of a validator: the normalised value, or a message for the user. */
  datatype Result<T> = Ok(value: T) | Err(message: string)

  /** ASCII letters only: 'A'..'Z' and 'a'..'z'. */
  predicate IsAsciiAlphabetic(c: char) {
    ('A' <= c <= 'Z') || ('a' <= c <= 'z')
  }

  predicate IsAsciiLowercaseLetter(c: char) {
    'a' <= c <= 'z'
  }

  predicate AllAsciiAlphabetic(s: string) {
    forall i :: 0 <= i < |s| ==> IsAsciiAlphabetic(s[i])
  }

  /** Map 'A'..'Z' to 'a'..'z' and leave every other character as it is. */
  function AsciiLower(c: char): (l: char)
    ensures IsAsciiAlphabetic(c) <==> IsAsciiLowercaseLetter(l)
    ensures IsAsciiAlphabetic(c) ==> IsAsciiAlphabetic(l)
    ensures !('A' <= c <= 'Z') ==> l == c
    ensures 'A' <= c <= 'Z' ==> l as int - 'a' as int == c as int - 'A' as int
  {
    if 'A' <= c <= 'Z' then (c as int - 'A' as int + 'a' as int) as char else c
  }

  /** The string's ASCII-lowercase form, character by character. */
  function ToAsciiLowercase(s: string): (r: string)
    ensures |r| == |s|
    ensures forall i :: 0 <= i < |r| ==> !('A' <= r[i] <= 'Z')
    ensures forall i :: 0 <= i < |s| ==> (IsAsciiAlphabetic(s[i]) <==> IsAsciiAlphabetic(r[i]))
    ensures forall i :: 0 <= i < |s| && !IsAsciiAlphabetic(s[i]) ==> r[i] == s[i]
    ensures forall i :: 0 <= i < |s| && 'A' <= s[i] <= 'Z' ==> r[i] as int - 'a' as int == s[i] as int - 'A' as int
    ensures forall i :: 0 <= i < |s| && 'a' <= s[i] <= 'z' ==> r[i] == s[i]
  {
    seq(|s|, i requires 0 <= i < |s| => AsciiLower(s[i]))
  }

  /** The number of bytes a character takes in UTF-8. */
  function Utf8Width(c: char): (n: nat)
    ensures 1 <= n <= 4
    ensures n == 1 <==> c as int < 0x80
  {
    if c as int < 0x80 then 1
    else if c as int < 0x800 then 2
    else if c as int < 0x1_0000 then 3
    else 4
  }

  /** The length of the string's UTF-8 encoding, which is what a Rust `str` reports as its length. */
  function Utf8Length(s: string): (n: nat)
    ensures |s| <= n <= 4 * |s|
    decreases |s|
  {
    if s == [] then 0 else Utf8Length(s[..|s| - 1]) + Utf8Width(s[|s| - 1])
  }

  /** `part` occurs in `text` starting at index `i`. */
  predicate OccursAt(text: string, part: string, i: int) {
    0 <= i <= |text| - |part| && text[i..i + |part|] == part
  }

  /** The message the validator gives for a rejected string: the input in quotes, then a fixed text. */
  function InvalidCodeMessage(s: string): (m: string)
    ensures |m| > |s| + 1 && m[..1 + |s|] == "'" + s
    ensures OccursAt(m, s, 1)
  {
    var tail := "' is not a valid ISO-639-1 language code (two ASCII letters)";
    var m := "'" + s + tail;
    assert m[1..1 + |s|] == s;
    m
  }

  ghost predicate Contains(text: string, part: string) {
    exists i :: OccursAt(text, part, i)
  }

  /**
   * The validator: the length check counts UTF-8 bytes and the letter check
   * looks at every character; the value is lowercased on success.
   */
  function ParseLangCode(s: string): (r: Result<string>)
    ensures r.Err? ==> Contains(r.message, s)
  {
    if Utf8Length(s) == 2 && AllAsciiAlphabetic(s) then
      Ok(ToAsciiLowercase(s))
    else
      Err(InvalidCodeMessage(s))
  }

  /** The value the `--language` option takes when it is not given. */
  const DefaultLanguage: string := "en"

  /** A string of ASCII letters only is as many bytes long as it has characters. */
  lemma {:induction false} AsciiUtf8Length(s: string)
    requires AllAsciiAlphabetic(s)
    ensures Utf8Length(s) == |s|
  {
    if s != [] {
      AsciiUtf8Length(s[..|s| - 1]);
    }
  }

  /** The validator accepts exactly the strings of two ASCII letters. */
  lemma AcceptsExactlyTwoAsciiLetters(s: string)
    ensures ParseLangCode(s).Ok? <==> |s| == 2 && AllAsciiAlphabetic(s)
  {
    if AllAsciiAlphabetic(s) {
      AsciiUtf8Length(s);
    }
  }

  /** An accepted code comes back as two lowercase ASCII letters, equal to the input up to ASCII case. */
  lemma AcceptedValueIsLowercaseForm(s: string)
    requires ParseLangCode(s).Ok?
    ensures ParseLangCode(s).value == ToAsciiLowercase(s)
    ensures |ParseLangCode(s).value| == 2
    ensures forall i :: 0 <= i < 2 ==> IsAsciiLowercaseLetter(ParseLangCode(s).value[i])
  {
    AcceptsExactlyTwoAsciiLetters(s);
  }

  /** Validating an accepted value again gives the same value back. */
  lemma ParseIsIdempotent(s: string)
    requires ParseLangCode(s).Ok?
    ensures ParseLangCode(ParseLangCode(s).value) == Ok(ParseLangCode(s).value)
  {
    AcceptsExactlyTwoAsciiLetters(s);
    var v := ParseLangCode(s).value;
    assert AllAsciiAlphabetic(v);
    AcceptsExactlyTwoAsciiLetters(v);
    assert ToAsciiLowercase(v) == v;
  }

  /** Case does not matter: a string and its lowercase form are accepted or rejected together, with the same value. */
  lemma ParseIgnoresCase(s: string)
    ensures ParseLangCode(s).Ok? <==> ParseLangCode(ToAsciiLowercase(s)).Ok?
    ensures ParseLangCode(s).Ok? ==> ParseLangCode(ToAsciiLowercase(s)).value == ParseLangCode(s).value
  {
    var l := ToAsciiLowercase(s);
    AcceptsExactlyTwoAsciiLetters(s);
    AcceptsExactlyTwoAsciiLetters(l);
    assert AllAsciiAlphabetic(s) <==> AllAsciiAlphabetic(l) by {
      if AllAsciiAlphabetic(l) {
        forall i | 0 <= i < |s| ensures IsAsciiAlphabetic(s[i]) {
          assert IsAsciiAlphabetic(l[i]);
        }
      }
    }
    if AllAsciiAlphabetic(s) {
      assert ToAsciiLowercase(l) == l;
    }
  }

  /** A rejected input is quoted at the start of the message, right after the opening quote. */
  lemma RejectionQuotesInput(s: string)
    requires ParseLangCode(s).Err?
    ensures ParseLangCode(s).message[1..1 + |s|] == s
    ensures ParseLangCode(s).message == InvalidCodeMessage(s)
  {
  }

  /** The accepted examples of the unit tests: "de" stays "de" and "EN" becomes "en". */
  lemma AcceptedExamples()
    ensures ParseLangCode("de") == Ok("de")
    ensures ParseLangCode("EN") == Ok("en")
  {
    AcceptsExactlyTwoAsciiLetters("de");
    AcceptsExactlyTwoAsciiLetters("EN");
    assert ToAsciiLowercase("EN") == "en";
    assert ToAsciiLowercase("de") == "de";
  }

  /** The option's default value passes its own validator unchanged. */
  lemma DefaultLanguageAccepted()
    ensures ParseLangCode(DefaultLanguage) == Ok(DefaultLanguage)
  {
    AcceptsExactlyTwoAsciiLetters("en");
    assert ToAsciiLowercase("en") == "en";
  }

  /** The rejected examples of the unit tests: a code that is too long, and one with a digit. */
  lemma RejectedExamples()
    ensures ParseLangCode("eng").Err? && Contains(ParseLangCode("eng").message, "eng")
    ensures ParseLangCode("1a").Err? && Contains(ParseLangCode("1a").message, "1a")
  {
    AcceptsExactlyTwoAsciiLetters("eng");
    AcceptsExactlyTwoAsciiLetters("1a");
    assert !IsAsciiAlphabetic("1a"[0]);
  }

  /** One non-ASCII letter is two UTF-8 bytes, so it passes the length check but not the letter check. */
  lemma NonAsciiLetterRejected()
    ensures Utf8Length("é") == 2
    ensures ParseLangCode("é").Err?
  {
    assert !IsAsciiAlphabetic("é"[0]);
  }
}
