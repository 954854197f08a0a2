/** `escapeHtml`: the five global replacements that make text safe to put inside HTML. */
module Escape {
  import opened Strings

  /** `s.replace(/c/g, rep)` for a one-character pattern `c`. */
  function ReplaceChar(s: string, c: char, rep: string): (r: string)
  {
    if s == [] then [] else (if s[0] == c then rep else [s[0]]) + ReplaceChar(s[1..], c, rep)
  }

  /** The replacements in the program's order: `&` first, then `<`, `>`, `"` and `'`. */
  function EscapeHtml(s: string): string
  {
    ReplaceChar(ReplaceChar(ReplaceChar(ReplaceChar(ReplaceChar(
      s, '&', "&amp;"), '<', "&lt;"), '>', "&gt;"), '"', "&quot;"), '\'', "&#039;")
  }

  predicate IsSpecial(c: char)
  {
    c == '&' || c == '<' || c == '>' || c == '"' || c == '\''
  }

  /** The entity a character stands for in escaped text (itself when it is not special). */
  function EntityFor(c: char): (r: string)
    ensures r != [] && (r == [c] <==> !IsSpecial(c))
    ensures '<' !in r && '>' !in r && '"' !in r && '\'' !in r
  {
    match c
    case '&' => "&amp;"
    case '<' => "&lt;"
    case '>' => "&gt;"
    case '"' => "&quot;"
    case '\'' => "&#039;"
    case _ => [c]
  }

  /** Reference definition: every character replaced by its entity in one pass. */
  function EscapeEach(s: string): (r: string)
    ensures '<' !in r && '>' !in r && '"' !in r && '\'' !in r
    ensures |r| >= |s|
  {
    if s == [] then [] else EntityFor(s[0]) + EscapeEach(s[1..])
  }

  lemma {:induction false} ReplaceCharAppend(a: string, b: string, c: char, rep: string)
    ensures ReplaceChar(a + b, c, rep) == ReplaceChar(a, c, rep) + ReplaceChar(b, c, rep)
  {
    if a == [] {
      assert a + b == b;
    } else {
      assert (a + b)[1..] == a[1..] + b;
      ReplaceCharAppend(a[1..], b, c, rep);
    }
  }

  /** Replacing a character that does not occur changes nothing. */
  lemma {:induction false} ReplaceAbsent(s: string, c: char, rep: string)
    requires c !in s
    ensures ReplaceChar(s, c, rep) == s
  {
    if s != [] {
      ReplaceAbsent(s[1..], c, rep);
    }
  }

  lemma ReplaceSingle(c: char, x: char, rep: string)
    ensures ReplaceChar([c], x, rep) == if c == x then rep else [c]
  {
    assert [c][1..] == [];
  }

  lemma EscapeHtmlAppend(a: string, b: string)
    ensures EscapeHtml(a + b) == EscapeHtml(a) + EscapeHtml(b)
  {
    ReplaceCharAppend(a, b, '&', "&amp;");
    var a1, b1 := ReplaceChar(a, '&', "&amp;"), ReplaceChar(b, '&', "&amp;");
    ReplaceCharAppend(a1, b1, '<', "&lt;");
    var a2, b2 := ReplaceChar(a1, '<', "&lt;"), ReplaceChar(b1, '<', "&lt;");
    ReplaceCharAppend(a2, b2, '>', "&gt;");
    var a3, b3 := ReplaceChar(a2, '>', "&gt;"), ReplaceChar(b2, '>', "&gt;");
    ReplaceCharAppend(a3, b3, '"', "&quot;");
    var a4, b4 := ReplaceChar(a3, '"', "&quot;"), ReplaceChar(b3, '"', "&quot;");
    ReplaceCharAppend(a4, b4, '\'', "&#039;");
  }

  /** The passes after the one that made `e` leave `e` alone. */
  lemma LaterPassesKeep(e: string, from: nat)
    requires from <= 4
    requires from <= 1 ==> '<' !in e
    requires from <= 2 ==> '>' !in e
    requires from <= 3 ==> '"' !in e
    requires '\'' !in e
    ensures from <= 1 ==> ReplaceChar(e, '<', "&lt;") == e
    ensures from <= 2 ==> ReplaceChar(e, '>', "&gt;") == e
    ensures from <= 3 ==> ReplaceChar(e, '"', "&quot;") == e
    ensures ReplaceChar(e, '\'', "&#039;") == e
  {
    if from <= 1 { ReplaceAbsent(e, '<', "&lt;"); }
    if from <= 2 { ReplaceAbsent(e, '>', "&gt;"); }
    if from <= 3 { ReplaceAbsent(e, '"', "&quot;"); }
    ReplaceAbsent(e, '\'', "&#039;");
  }

  lemma EscapeOne(c: char)
    ensures EscapeHtml([c]) == EntityFor(c)
  {
    ReplaceSingle(c, '&', "&amp;");
    if c == '&' {
      LaterPassesKeep("&amp;", 1);
    } else {
      ReplaceSingle(c, '<', "&lt;");
      if c == '<' {
        LaterPassesKeep("&lt;", 2);
      } else {
        ReplaceSingle(c, '>', "&gt;");
        if c == '>' {
          LaterPassesKeep("&gt;", 3);
        } else {
          ReplaceSingle(c, '"', "&quot;");
          if c == '"' {
            LaterPassesKeep("&quot;", 4);
          } else {
            ReplaceSingle(c, '\'', "&#039;");
          }
        }
      }
    }
  }

  /** Because `&` is replaced first, the five passes never re-escape an entity made by an
      earlier pass: each special character becomes exactly one entity. */
  lemma {:induction false} EscapeHtmlIsPerCharacter(s: string)
    ensures EscapeHtml(s) == EscapeEach(s)
  {
    if s != [] {
      assert s == [s[0]] + s[1..];
      EscapeHtmlAppend([s[0]], s[1..]);
      EscapeOne(s[0]);
      EscapeHtmlIsPerCharacter(s[1..]);
    }
  }

  /** Decoding of the five entities, the inverse of escaping. */
  function Unescape(s: string): string
  {
    if s == [] then []
    else if StartsWith(s, "&amp;") then ['&'] + Unescape(s[5..])
    else if StartsWith(s, "&lt;") then ['<'] + Unescape(s[4..])
    else if StartsWith(s, "&gt;") then ['>'] + Unescape(s[4..])
    else if StartsWith(s, "&quot;") then ['"'] + Unescape(s[6..])
    else if StartsWith(s, "&#039;") then ['\''] + Unescape(s[6..])
    else [s[0]] + Unescape(s[1..])
  }

  lemma UnescapeEntity(c: char, rest: string)
    ensures Unescape(EntityFor(c) + rest) == [c] + Unescape(rest)
  {
    var e := EntityFor(c);
    var t := e + rest;
    assert t[|e|..] == rest;
    if c == '&' {
      StartsWithConcat("&amp;", rest);
    } else if c == '<' {
      assert t[1] == 'l';
      NotStartsWithAt(t, "&amp;", 1);
      StartsWithConcat("&lt;", rest);
    } else if c == '>' {
      assert t[1] == 'g';
      NotStartsWithAt(t, "&amp;", 1);
      NotStartsWithAt(t, "&lt;", 1);
      StartsWithConcat("&gt;", rest);
    } else if c == '"' {
      assert t[1] == 'q';
      NotStartsWithAt(t, "&amp;", 1);
      NotStartsWithAt(t, "&lt;", 1);
      NotStartsWithAt(t, "&gt;", 1);
      StartsWithConcat("&quot;", rest);
    } else if c == '\'' {
      assert t[1] == '#';
      NotStartsWithAt(t, "&amp;", 1);
      NotStartsWithAt(t, "&lt;", 1);
      NotStartsWithAt(t, "&gt;", 1);
      NotStartsWithAt(t, "&quot;", 1);
      StartsWithConcat("&#039;", rest);
    } else {
      assert t[0] == c;
      NotStartsWithAt(t, "&amp;", 0);
      NotStartsWithAt(t, "&lt;", 0);
      NotStartsWithAt(t, "&gt;", 0);
      NotStartsWithAt(t, "&quot;", 0);
      NotStartsWithAt(t, "&#039;", 0);
    }
  }

  /** The escaped text holds none of the characters that end an attribute or open a tag. */
  lemma EscapeHtmlHasNoRawSpecials(s: string)
    ensures var r := EscapeHtml(s); '<' !in r && '>' !in r && '"' !in r && '\'' !in r
  {
    EscapeHtmlIsPerCharacter(s);
  }

  /** Escaping loses nothing: the original text is recovered from the escaped one. */
  lemma {:induction false} UnescapeEscape(s: string)
    ensures Unescape(EscapeHtml(s)) == s
  {
    EscapeHtmlIsPerCharacter(s);
    EscapeEachRoundTrip(s);
  }

  lemma {:induction false} EscapeEachRoundTrip(s: string)
    ensures Unescape(EscapeEach(s)) == s
  {
    if s != [] {
      UnescapeEntity(s[0], EscapeEach(s[1..]));
      EscapeEachRoundTrip(s[1..]);
      assert s == [s[0]] + s[1..];
    }
  }

  /** Characters that are not special pass through in order: text without them is unchanged. */
  lemma {:induction false} EscapePlainText(s: string)
    requires forall i :: 0 <= i < |s| ==> !IsSpecial(s[i])
    ensures EscapeHtml(s) == s
  {
    EscapeHtmlIsPerCharacter(s);
    EscapeEachPlain(s);
  }

  lemma {:induction false} EscapeEachPlain(s: string)
    requires forall i :: 0 <= i < |s| ==> !IsSpecial(s[i])
    ensures EscapeEach(s) == s
  {
    if s != [] {
      EscapeEachPlain(s[1..]);
      assert s == [s[0]] + s[1..];
    }
  }
}
