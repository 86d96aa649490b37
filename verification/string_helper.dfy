/**
 * `formatStringByTemplate` of src/helpers/string.helper.ts: for each entry
 * `(k, v)` of the data object, in entry order, every case-insensitive occurrence
 * of `{k}` in the template is replaced by `String(v)`.
 */
module StringHelper {
  import opened Maybe
  import opened Text

  function Placeholder(key: string): string {
    "{" + key + "}"
  }

  /**
   * `s.replaceAll(new RegExp("\\{" + key + "\\}", "gi"), value)`: a left-to-right
   * scan that replaces each case-insensitive occurrence of `{key}` and resumes after it.
   * Text without `{` holds no occurrence and comes back unchanged.
   */
  function ReplacePlaceholder(s: string, key: string, value: string): (r: string)
    ensures '{' !in s ==> r == s
    decreases |s|
  {
    var pattern := Placeholder(key);
    if |s| < |pattern| then s
    else if EqualsIgnoreCase(s[..|pattern|], pattern) then
      OpensWithBrace(s[..|pattern|], key);
      value + ReplacePlaceholder(s[|pattern|..], key, value)
    else
      assert '{' !in s ==> '{' !in s[1..];
      assert s == [s[0]] + s[1..];
      [s[0]] + ReplacePlaceholder(s[1..], key, value)
  }

  /** Only `{` itself lower-cases to `{`, so a match starts at a brace. */
  lemma OpensWithBrace(head: string, key: string)
    requires EqualsIgnoreCase(head, Placeholder(key))
    ensures head[0] == '{'
  {
    assert Lower(head[0]) == Lower(Placeholder(key)[0]) == '{';
  }

  /** The entries applied one after the other, each to the output of the previous one. */
  function ApplyEntries(template: string, data: seq<(string, string)>): (r: string)
    ensures '{' !in template ==> r == template
    decreases |data|
  {
    if |data| == 0 then template
    else ApplyEntries(ReplacePlaceholder(template, data[0].0, data[0].1), data[1..])
  }

  /**
   * `formatStringByTemplate(template = "", data = {})`: an undefined template is the
   * empty string; empty data, or a template without `{`, is returned unchanged.
   */
  function FormatStringByTemplate(template: Option<string>, data: seq<(string, string)>): (r: string)
    ensures template.None? ==> r == ""
    ensures |data| == 0 ==> r == template.GetOr("")
    ensures template.Some? && '{' !in template.value ==> r == template.value
  {
    ApplyEntries(template.GetOr(""), data)
  }

  /** Keys are applied in entry order: a later key also rewrites text an earlier value inserted. */
  lemma {:induction false} EntriesApplySequentially(template: string, first: seq<(string, string)>, rest: seq<(string, string)>)
    ensures ApplyEntries(template, first + rest) == ApplyEntries(ApplyEntries(template, first), rest)
    decreases |first|
  {
    if |first| > 0 {
      assert (first + rest)[0] == first[0];
      assert (first + rest)[1..] == first[1..] + rest;
      EntriesApplySequentially(ReplacePlaceholder(template, first[0].0, first[0].1), first[1..], rest);
    } else {
      assert first + rest == rest;
    }
  }

  /**
   * A value inserted for `{a}` that itself reads `{b}` is rewritten when `b` comes
   * later: whatever the keys and the final value, the template `{a}` ends as that value.
   */
  lemma SubstitutionCascades(a: string, b: string, x: string)
    ensures FormatStringByTemplate(Some(Placeholder(a)), [(a, Placeholder(b)), (b, x)]) == x
  {
    var data := [(a, Placeholder(b)), (b, x)];
    assert EqualsIgnoreCase(a, a) && EqualsIgnoreCase(b, b);
    HitSlot(a, "", a, Placeholder(b));
    HitSlot(b, "", b, x);
    assert Placeholder(a) + "" == Placeholder(a) && Placeholder(b) + "" == Placeholder(b);
    var t1 := ReplacePlaceholder(Placeholder(a), a, Placeholder(b));
    assert t1 == Placeholder(b) + "";
    var t2 := ReplacePlaceholder(t1, b, x);
    assert t2 == x + "";
    assert ApplyEntries(Placeholder(a), data) == ApplyEntries(t1, data[1..]);
    assert ApplyEntries(t1, data[1..]) == ApplyEntries(t2, data[1..][1..]);
    assert data[1..][1..] == [];
  }

  // ---------------------------------------------------------------- templates with placeholders

  /** A template cut at its placeholders: literal text, or a `{key}` slot. */
  datatype Piece = Literal(text: string) | Slot(key: string)

  predicate IsIdentifierChar(c: char) {
    ('a' <= c <= 'z') || ('A' <= c <= 'Z') || ('0' <= c <= '9') || c == '_'
  }

  /** Keys are identifiers, so they hold no brace and no regular-expression metacharacter. */
  predicate IsIdentifier(key: string) {
    forall i :: 0 <= i < |key| ==> IsIdentifierChar(key[i])
  }

  /** Literal text holds no `{`; so every `{` of the rendered template opens a slot. */
  predicate WellFormed(t: seq<Piece>) {
    forall i :: 0 <= i < |t| ==>
      match t[i]
      case Literal(text) => '{' !in text
      case Slot(key) => IsIdentifier(key)
  }

  function PieceText(p: Piece): string {
    match p
    case Literal(text) => text
    case Slot(key) => Placeholder(key)
  }

  function Render(t: seq<Piece>): string {
    if |t| == 0 then "" else PieceText(t[0]) + Render(t[1..])
  }

  /** Every slot whose key equals `key` up to case becomes the literal `value`. */
  function Fill(t: seq<Piece>, key: string, value: string): (r: seq<Piece>)
    ensures |r| == |t|
    ensures forall i :: 0 <= i < |t| ==>
      r[i] == FillPiece(t[i], key, value)
  {
    if |t| == 0 then [] else [FillPiece(t[0], key, value)] + Fill(t[1..], key, value)
  }

  /** A slot for `key`, in any letter case, becomes the value; every other piece stays. */
  function FillPiece(p: Piece, key: string, value: string): Piece {
    if p.Slot? && EqualsIgnoreCase(p.key, key) then Literal(value) else p
  }

  /** Rendering distributes over concatenation of templates. */
  lemma {:induction false} RenderAppend(a: seq<Piece>, b: seq<Piece>)
    ensures Render(a + b) == Render(a) + Render(b)
  {
    if |a| > 0 {
      assert (a + b)[0] == a[0];
      assert (a + b)[1..] == a[1..] + b;
      RenderAppend(a[1..], b);
    } else {
      assert a + b == b;
    }
  }

  function FillAll(t: seq<Piece>, data: seq<(string, string)>): seq<Piece>
    decreases |data|
  {
    if |data| == 0 then t else FillAll(Fill(t, data[0].0, data[0].1), data[1..])
  }

  lemma {:induction false} SkipBraceFree(x: string, y: string, key: string, value: string)
    requires '{' !in x
    ensures ReplacePlaceholder(x + y, key, value) == x + ReplacePlaceholder(y, key, value)
    decreases |x|
  {
    var s := x + y;
    if |x| == 0 {
      assert s == y;
    } else if |s| < |Placeholder(key)| {
      UnfoldShort(s, key, value);
      UnfoldShort(y, key, value);
    } else {
      var t := x[1..] + y;
      assert s == [x[0]] + t;
      NoMatchWithoutBrace(s[..|Placeholder(key)|], key);
      UnfoldNoMatch(x[0], t, key, value);
      SkipBraceFree(x[1..], y, key, value);
      assert x == [x[0]] + x[1..];
    }
  }

  /** A text that does not open with a brace does not match a placeholder. */
  lemma NoMatchWithoutBrace(head: string, key: string)
    requires |head| > 0 && head[0] != '{'
    ensures !EqualsIgnoreCase(head, Placeholder(key))
  {
    if EqualsIgnoreCase(head, Placeholder(key)) {
      OpensWithBrace(head, key);
    }
  }

  lemma HitSlot(slotKey: string, y: string, key: string, value: string)
    requires EqualsIgnoreCase(slotKey, key)
    ensures ReplacePlaceholder(Placeholder(slotKey) + y, key, value) == value + ReplacePlaceholder(y, key, value)
  {
    var s := Placeholder(slotKey) + y;
    var pattern := Placeholder(key);
    assert s[..|pattern|] == Placeholder(slotKey);
    assert s[|pattern|..] == y;
  }

  lemma MissSlot(slotKey: string, y: string, key: string, value: string)
    requires IsIdentifier(slotKey) && IsIdentifier(key) && !EqualsIgnoreCase(slotKey, key)
    ensures ReplacePlaceholder(Placeholder(slotKey) + y, key, value) == Placeholder(slotKey) + ReplacePlaceholder(y, key, value)
  {
    var rest := slotKey + "}";
    var t := rest + y;
    var s := ['{'] + t;
    var ry := ReplacePlaceholder(y, key, value);
    assert s == Placeholder(slotKey) + y;
    assert Placeholder(slotKey) + ry == ['{'] + (rest + ry);
    NoMatchAtSlot(slotKey, y, key);
    SlotTailIsBraceFree(slotKey);
    SkipBraceFree(rest, y, key, value);
    if |s| < |Placeholder(key)| {
      UnfoldShort(s, key, value);
      UnfoldShort(y, key, value);
    } else {
      UnfoldNoMatch('{', t, key, value);
    }
  }

  lemma UnfoldShort(s: string, key: string, value: string)
    requires |s| < |Placeholder(key)|
    ensures ReplacePlaceholder(s, key, value) == s
  {
  }

  lemma UnfoldNoMatch(c: char, t: string, key: string, value: string)
    requires |[c] + t| >= |Placeholder(key)|
    requires !EqualsIgnoreCase(([c] + t)[..|Placeholder(key)|], Placeholder(key))
    ensures ReplacePlaceholder([c] + t, key, value) == [c] + ReplacePlaceholder(t, key, value)
  {
    assert ([c] + t)[1..] == t;
  }

  /** A slot for another identifier does not match `{key}`, whatever text follows it. */
  lemma NoMatchAtSlot(slotKey: string, y: string, key: string)
    requires IsIdentifier(slotKey) && IsIdentifier(key) && !EqualsIgnoreCase(slotKey, key)
    ensures var s := Placeholder(slotKey) + y;
            |s| < |Placeholder(key)| || !EqualsIgnoreCase(s[..|Placeholder(key)|], Placeholder(key))
  {
    var s := Placeholder(slotKey) + y;
    var pattern := Placeholder(key);
    if |s| >= |pattern| {
      var head := s[..|pattern|];
      if |slotKey| == |key| {
        assert head == Placeholder(slotKey);
        var i :| 0 <= i < |slotKey| && Lower(slotKey[i]) != Lower(key[i]);
        assert head[i + 1] == slotKey[i] && pattern[i + 1] == key[i];
      } else if |slotKey| < |key| {
        var j := |slotKey| + 1;
        assert head[j] == '}' && pattern[j] == key[j - 1];
        IdentifierCharIsNotBrace(key[j - 1]);
      } else {
        var j := |key| + 1;
        assert head[j] == slotKey[j - 1] && pattern[j] == '}';
        IdentifierCharIsNotBrace(slotKey[j - 1]);
      }
    }
  }

  lemma SlotTailIsBraceFree(slotKey: string)
    requires IsIdentifier(slotKey)
    ensures '{' !in slotKey + "}"
  {
  }

  lemma IdentifierCharIsNotBrace(c: char)
    requires IsIdentifierChar(c)
    ensures Lower(c) != '}'
  {
  }

  /**
   * Every placeholder for `key`, in any letter case, is replaced by `value`, and
   * nothing else changes: replacing in the rendered text is rendering the filled template.
   */
  lemma {:induction false} ReplaceFillsSlots(t: seq<Piece>, key: string, value: string)
    requires WellFormed(t) && IsIdentifier(key)
    ensures ReplacePlaceholder(Render(t), key, value) == Render(Fill(t, key, value))
    decreases |t|
  {
    if |t| > 0 {
      assert WellFormed(t[1..]) by {
        assert forall i :: 0 <= i < |t[1..]| ==> t[1..][i] == t[i + 1];
      }
      ReplaceFillsSlots(t[1..], key, value);
      var y := Render(t[1..]);
      match t[0]
      case Literal(text) =>
        assert '{' !in text by {
          assert t[0] == Literal(text);
        }
        SkipBraceFree(text, y, key, value);
      case Slot(k) =>
        assert IsIdentifier(k) by {
          assert t[0] == Slot(k);
        }
        if EqualsIgnoreCase(k, key) {
          HitSlot(k, y, key, value);
        } else {
          MissSlot(k, y, key, value);
        }
    }
  }

  lemma {:induction false} FillKeepsWellFormed(t: seq<Piece>, key: string, value: string)
    requires WellFormed(t) && '{' !in value
    ensures WellFormed(Fill(t, key, value))
    decreases |t|
  {
    if |t| > 0 {
      assert WellFormed(t[1..]) by {
        assert forall i :: 0 <= i < |t[1..]| ==> t[1..][i] == t[i + 1];
      }
      FillKeepsWellFormed(t[1..], key, value);
      var r := Fill(t, key, value);
      assert forall i :: 1 <= i < |r| ==> r[i] == Fill(t[1..], key, value)[i - 1];
    }
  }

  predicate IdentifierKeys(data: seq<(string, string)>) {
    forall i :: 0 <= i < |data| ==> IsIdentifier(data[i].0)
  }

  predicate BraceFreeValues(data: seq<(string, string)>) {
    forall i :: 0 <= i < |data| ==> '{' !in data[i].1
  }

  /**
   * Formatting a well-formed template with identifier keys and values free of `{`
   * fills exactly its slots, entry by entry.
   */
  lemma {:induction false} FormatFillsTemplate(t: seq<Piece>, data: seq<(string, string)>)
    requires WellFormed(t) && IdentifierKeys(data) && BraceFreeValues(data)
    ensures FormatStringByTemplate(Some(Render(t)), data) == Render(FillAll(t, data))
    decreases |data|
  {
    if |data| > 0 {
      ReplaceFillsSlots(t, data[0].0, data[0].1);
      FillKeepsWellFormed(t, data[0].0, data[0].1);
      assert IdentifierKeys(data[1..]) by {
        assert forall i :: 0 <= i < |data[1..]| ==> data[1..][i] == data[i + 1];
      }
      assert BraceFreeValues(data[1..]) by {
        assert forall i :: 0 <= i < |data[1..]| ==> data[1..][i] == data[i + 1];
      }
      FormatFillsTemplate(Fill(t, data[0].0, data[0].1), data[1..]);
    }
  }
}
