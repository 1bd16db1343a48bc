/**
 * Escaping of alert text for the MarkdownV2 parse mode of the Telegram Bot
 * API ("Formatting options", MarkdownV2 style), as `escape_markdown` in
 * new-posts3.py does it, together with a reader for MarkdownV2 text that
 * holds no markup and a corrected escaper.
 */
module Markdown {
  import opened Wrappers

  /** The 18 characters MarkdownV2 reserves for markup. */
  const ReservedChars: string := "_*[]()~`>#+-=|{}.!"

  predicate IsReserved(c: char)
  {
    c in ReservedChars
  }

  function CountReserved(s: string): nat
    decreases |s|
  {
    if s == [] then 0 else (if IsReserved(s[0]) then 1 else 0) + CountReserved(s[1..])
  }

  /**
   * `escape_markdown`: a backslash before every reserved character, every
   * other character (the backslash itself included) copied as it is.
   */
  function EscapeMarkdown(text: string): (r: string)
    ensures |r| == |text| + CountReserved(text)
    decreases |text|
  {
    if text == [] then []
    else (if IsReserved(text[0]) then ['\\', text[0]] else [text[0]]) + EscapeMarkdown(text[1..])
  }

  /** Deletes every backslash that immediately precedes a reserved character. */
  function Unescape(s: string): string
    decreases |s|
  {
    if |s| >= 2 && s[0] == '\\' && IsReserved(s[1]) then [s[1]] + Unescape(s[2..])
    else if s == [] then []
    else [s[0]] + Unescape(s[1..])
  }

  lemma EscapedHeadNotReserved(text: string)
    ensures EscapeMarkdown(text) == [] || !IsReserved(EscapeMarkdown(text)[0])
  {
  }

  /** Escaping works character by character: it distributes over concatenation. */
  lemma {:induction false} EscapeConcat(a: string, b: string)
    ensures EscapeMarkdown(a + b) == EscapeMarkdown(a) + EscapeMarkdown(b)
    decreases |a|
  {
    if a != [] {
      assert (a + b)[1..] == a[1..] + b;
      EscapeConcat(a[1..], b);
    } else {
      assert a + b == b;
    }
  }

  /** Removing the inserted backslashes gives the input back. */
  lemma {:induction false} UnescapeEscape(text: string)
    ensures Unescape(EscapeMarkdown(text)) == text
    decreases |text|
  {
    if text != [] {
      var rest := EscapeMarkdown(text[1..]);
      UnescapeEscape(text[1..]);
      if IsReserved(text[0]) {
        var r := ['\\', text[0]] + rest;
        assert r[2..] == rest;
      } else {
        var r := [text[0]] + rest;
        assert r[1..] == rest;
        EscapedHeadNotReserved(text[1..]);
        assert !(|r| >= 2 && r[0] == '\\' && IsReserved(r[1]));
      }
    }
  }

  /** A text without reserved characters is sent as it is. */
  lemma {:induction false} EscapeNoReserved(text: string)
    requires forall i :: 0 <= i < |text| ==> !IsReserved(text[i])
    ensures EscapeMarkdown(text) == text
    decreases |text|
  {
    if text != [] {
      EscapeNoReserved(text[1..]);
    }
  }

  /** Every reserved character of `r` directly follows a backslash. */
  predicate ReservedArePreceded(r: string)
  {
    forall i :: 0 <= i < |r| && IsReserved(r[i]) ==> i > 0 && r[i - 1] == '\\'
  }

  /** In the escaped text every reserved character directly follows a backslash. */
  lemma {:induction false} EscapedReservedArePreceded(text: string)
    ensures ReservedArePreceded(EscapeMarkdown(text))
    decreases |text|
  {
    if text != [] {
      var rest := EscapeMarkdown(text[1..]);
      EscapedReservedArePreceded(text[1..]);
      var head := if IsReserved(text[0]) then ['\\', text[0]] else [text[0]];
      var r := head + rest;
      assert r == EscapeMarkdown(text);
      assert !IsReserved('\\');
      forall i | 0 <= i < |r| && IsReserved(r[i])
        ensures i > 0 && r[i - 1] == '\\'
      {
        if i >= |head| {
          var j := i - |head|;
          assert r[i] == rest[j];
          assert j > 0 && rest[j - 1] == '\\';
          assert r[i - 1] == rest[j - 1];
        }
      }
    }
  }

  /**
   * How a MarkdownV2 reader takes text that holds no markup: a backslash
   * followed by a character of code 1 to 126 stands for that character, an
   * unescaped reserved character starts markup (None: the text is not plain),
   * and so does a backslash that escapes nothing.
   */
  function PlainText(s: string): Option<string>
    decreases |s|
  {
    if s == [] then Some([])
    else if s[0] == '\\' then
      if |s| >= 2 && 1 <= s[1] as int <= 126 then Prepend(s[1], PlainText(s[2..])) else None
    else if IsReserved(s[0]) then None
    else Prepend(s[0], PlainText(s[1..]))
  }

  function Prepend(c: char, o: Option<string>): Option<string>
  {
    if o.Some? then Some([c] + o.value) else None
  }

  /** A title without backslashes reaches the reader exactly as written. */
  lemma {:induction false} EscapeReadsBack(text: string)
    requires '\\' !in text
    ensures PlainText(EscapeMarkdown(text)) == Some(text)
    decreases |text|
  {
    if text != [] {
      EscapeReadsBack(text[1..]);
      var rest := EscapeMarkdown(text[1..]);
      if IsReserved(text[0]) {
        assert ['\\', text[0]] + rest == ['\\'] + ([text[0]] + rest);
        assert (['\\', text[0]] + rest)[2..] == rest;
      } else {
        assert ([text[0]] + rest)[1..] == rest;
      }
      assert [text[0]] + text[1..] == text;
    }
  }

  /**
   * A title holding a backslash followed by a reserved character comes out
   * with that character unescaped: `\*` becomes `\\*`, which a MarkdownV2
   * reader takes as an escaped backslash followed by the start of bold text.
   */
  lemma EscapeMissesBackslash()
    ensures EscapeMarkdown("\\*") == "\\\\*"
    ensures PlainText(EscapeMarkdown("\\*")) == None
  {
    assert EscapeMarkdown("*") == "\\*";
    assert EscapeMarkdown("\\*") == "\\" + EscapeMarkdown("*");
    assert PlainText("*") == None;
  }

  /** The corrected escaper: the backslash is escaped as well. */
  function EscapeMarkdownV2(text: string): (r: string)
    ensures PlainText(r) == Some(text)
    decreases |text|
  {
    if text == [] then []
    else
      var rest := EscapeMarkdownV2(text[1..]);
      if IsReserved(text[0]) || text[0] == '\\' then
        assert (['\\', text[0]] + rest)[2..] == rest;
        assert [text[0]] + text[1..] == text;
        ['\\', text[0]] + rest
      else
        assert ([text[0]] + rest)[1..] == rest;
        assert [text[0]] + text[1..] == text;
        [text[0]] + rest
  }

  /** On a text without backslashes the corrected escaper and `escape_markdown` agree. */
  lemma {:induction false} EscapeV2Agrees(text: string)
    requires '\\' !in text
    ensures EscapeMarkdownV2(text) == EscapeMarkdown(text)
    decreases |text|
  {
    if text != [] {
      assert text[0] in text;
      assert forall c :: c in text[1..] ==> c in text;
      EscapeV2Agrees(text[1..]);
    }
  }
}
