/**
 * The username form of src/components/search-form.tsx: the stored text never grows
 * past GitHub's 39-character limit, and a submission passes on the trimmed name
 * only when something other than whitespace was typed. Lengths are JavaScript's
 * `length`, counted in UTF-16 code units.
 */
module SearchForm {
  import opened Maybe
  import opened Github
  import opened Text

  /** `handleInputChange`: take the new text when it fits, and otherwise keep the old. */
  function HandleInputChange(stored: string, value: string): (r: string)
    ensures r == value || r == stored
    ensures r == value <==> Utf16Length(value) <= MaxUsernameLength || value == stored
  {
    if Utf16Length(value) <= MaxUsernameLength then value else stored
  }

  /** The stored text after a series of change events. */
  function Typed(stored: string, values: seq<string>): string
    decreases |values|
  {
    if |values| == 0 then stored else Typed(HandleInputChange(stored, values[0]), values[1..])
  }

  /** Starting within the limit, no series of change events goes past it, in code units or in characters. */
  lemma {:induction false} TypingKeepsTheLimit(stored: string, values: seq<string>)
    requires Utf16Length(stored) <= MaxUsernameLength
    ensures Utf16Length(Typed(stored, values)) <= MaxUsernameLength
    ensures |Typed(stored, values)| <= MaxUsernameLength
    decreases |values|
  {
    if |values| > 0 {
      TypingKeepsTheLimit(HandleInputChange(stored, values[0]), values[1..]);
    }
  }

  /**
   * A character above U+FFFF counts twice: twenty emoji are forty code units, so
   * they are refused although they are only twenty characters.
   */
  lemma AstralTextCountsTwice(stored: string, value: string)
    requires AboveBmp(value) && |value| == 20 && value != stored
    ensures HandleInputChange(stored, value) == stored
  {
    Utf16LengthCounts(value);
  }

  /** Within the Basic Multilingual Plane the limit is 39 characters. */
  lemma BmpLimitIsCharacters(stored: string, value: string)
    requires InBmp(value)
    ensures HandleInputChange(stored, value) == value <==> |value| <= MaxUsernameLength || value == stored
  {
    Utf16LengthCounts(value);
  }

  /**
   * `handleSubmit`: the name handed to `onSubmit`, if any. It is the trimmed text, and
   * it is handed on exactly when the text is not all whitespace.
   */
  function HandleSubmit(username: string): (r: Option<string>)
    ensures r.Some? <==> !AllWhitespace(username)
    ensures r.Some? ==> r.value == Trim(username) && IsTrimmed(r.value) && |r.value| >= MinSearchLength
  {
    var trimmed := Trim(username);
    TrimEmptyIffBlank(username);
    if Utf16Length(trimmed) >= MinSearchLength then Some(trimmed) else None
  }

  /** Padding a name with whitespace submits the same name. */
  lemma SubmitIgnoresPadding(before: string, name: string, after: string)
    requires AllWhitespace(before) && AllWhitespace(after) && IsTrimmed(name) && |name| > 0
    ensures HandleSubmit(before + name + after) == Some(name)
  {
    TrimUnique(before, name, after);
  }

  /** Submitting what was submitted submits it again unchanged. */
  lemma SubmitIsIdempotent(username: string)
    requires HandleSubmit(username).Some?
    ensures HandleSubmit(HandleSubmit(username).value) == HandleSubmit(username)
  {
    TrimIsIdempotent(username);
    TrimEmptyIffBlank(Trim(username));
  }

  /** The submit button's `disabled` flag: set while loading and while the text is blank. */
  predicate SubmitDisabled(isLoading: bool, username: string): (r: bool)
    ensures r <==> isLoading || AllWhitespace(username)
  {
    TrimEmptyIffBlank(username);
    isLoading || Utf16Length(Trim(username)) < MinSearchLength
  }

  /** The button is enabled exactly when nothing is loading and a submission would go through. */
  lemma EnabledExactlyWhenSubmitting(isLoading: bool, username: string)
    ensures !SubmitDisabled(isLoading, username) <==> !isLoading && HandleSubmit(username).Some?
  {
  }
}
