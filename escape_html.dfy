/** `escapeHtml` of js/main.js: `(text || '').toString()` with every `&`, `<`,
    `>` and `"` replaced by its character reference. */
module EscapeHtml {
  import opened Optional

  /** The four characters the regex `/[&<>"]/g` selects. */
  predicate IsSpecial(c: char) {
    c == '&' || c == '<' || c == '>' || c == '"'
  }

  /** The replacement callback's lookup table; any other character stands for itself. */
  function EscapeChar(c: char): (r: string)
    ensures IsSpecial(c) <==> |r| > 1
    ensures |r| >= 1 && r[0] == (if IsSpecial(c) then '&' else c)
    ensures forall k :: 0 <= k < |r| ==> r[k] != '<' && r[k] != '>' && r[k] != '"'
  {
    if c == '&' then "&amp;"
    else if c == '<' then "&lt;"
    else if c == '>' then "&gt;"
    else if c == '"' then "&quot;"
    else [c]
  }

  /** The global `replace`, one character at a time from the left. */
  function Escape(s: string): (r: string)
    ensures |r| >= |s|
    ensures forall k :: 0 <= k < |r| ==> r[k] != '<' && r[k] != '>' && r[k] != '"'
    decreases |s|
  {
    if s == [] then [] else EscapeChar(s[0]) + Escape(s[1..])
  }

  /** `escapeHtml(text)`; `None` stands for `null`/`undefined`, which `text || ''`
      turns into the empty string. */
  function EscapeHtml(text: Option<string>): (r: string)
    ensures text.None? ==> r == ""
    ensures forall k :: 0 <= k < |r| ==> r[k] != '<' && r[k] != '>' && r[k] != '"'
  {
    Escape(text.GetOr(""))
  }

  /** The reverse of the four substitutions, reading from the left: a reference
      decodes to its character, anything else stands for itself. */
  function Unescape(s: string): string
    decreases |s|
  {
    if s == [] then []
    else if |s| >= 5 && s[..5] == "&amp;" then "&" + Unescape(s[5..])
    else if |s| >= 4 && s[..4] == "&lt;" then "<" + Unescape(s[4..])
    else if |s| >= 4 && s[..4] == "&gt;" then ">" + Unescape(s[4..])
    else if |s| >= 6 && s[..6] == "&quot;" then "\"" + Unescape(s[6..])
    else [s[0]] + Unescape(s[1..])
  }

  /** Decoding a reference, or a character other than `&`, in front of any
      text. */
  lemma UnescapeReference(r: string, c: char, t: string)
    requires r in ["&amp;", "&lt;", "&gt;", "&quot;"]
    requires c == (if r == "&amp;" then '&' else if r == "&lt;" then '<' else if r == "&gt;" then '>' else '"')
    ensures Unescape(r + t) == [c] + Unescape(t)
  {
    var u := r + t;
    assert u[..|r|] == r && u[|r|..] == t;
    assert |u| >= 4 ==> u[..4][1] == u[1];
    assert |u| >= 5 ==> u[..5][1] == u[1];
  }

  /** Decoding one escaped character in front of any text. */
  lemma UnescapeEscapeChar(c: char, t: string)
    ensures Unescape(EscapeChar(c) + t) == [c] + Unescape(t)
  {
    if IsSpecial(c) {
      UnescapeReference(EscapeChar(c), c, t);
    } else {
      var u := EscapeChar(c) + t;
      assert u[0] == c && u[1..] == t;
      assert |u| >= 4 ==> u[..4][0] == c;
      assert |u| >= 5 ==> u[..5][0] == c;
      assert |u| >= 6 ==> u[..6][0] == c;
    }
  }

  /** Reversing the four substitutions recovers the input. */
  lemma {:induction false} UnescapeEscape(s: string)
    ensures Unescape(Escape(s)) == s
    decreases |s|
  {
    if s != [] {
      UnescapeEscapeChar(s[0], Escape(s[1..]));
      UnescapeEscape(s[1..]);
    }
  }

  /** Escaping is injective: different texts never render the same. */
  lemma EscapeInjective(s: string, t: string)
    requires Escape(s) == Escape(t)
    ensures s == t
  {
    UnescapeEscape(s);
    UnescapeEscape(t);
  }

  /** Escaping works character by character: the escape of a concatenation is
      the concatenation of the escapes. */
  lemma {:induction false} EscapeAppend(s: string, t: string)
    ensures Escape(s + t) == Escape(s) + Escape(t)
    decreases |s|
  {
    if s != [] {
      assert (s + t)[0] == s[0] && (s + t)[1..] == s[1..] + t;
      EscapeAppend(s[1..], t);
      calc {
        Escape(s + t);
        EscapeChar(s[0]) + Escape(s[1..] + t);
        EscapeChar(s[0]) + (Escape(s[1..]) + Escape(t));
        (EscapeChar(s[0]) + Escape(s[1..])) + Escape(t);
      }
    } else {
      assert s + t == t;
    }
  }

  /** Every character outside `& < > "` (the apostrophe among them) is left as
      it is, and a text changes exactly when it holds one of the four. */
  lemma {:induction false} EscapeUnchanged(s: string)
    ensures Escape(s) == s <==> forall k :: 0 <= k < |s| ==> !IsSpecial(s[k])
    decreases |s|
  {
    if s != [] {
      EscapeUnchanged(s[1..]);
      assert forall k :: 1 <= k < |s| ==> s[k] == s[1..][k - 1];
      if IsSpecial(s[0]) {
        assert |Escape(s)| > |s|;
      } else {
        assert Escape(s) == [s[0]] + Escape(s[1..]);
      }
    }
  }
}
