/** Strings as the source handles them: trimming, splitting at a separator, joining with one. */
module Strings {

  const SPACES := {' ', '\t', '\n', '\r', '\U{000B}', '\U{000C}', '\U{00A0}', '\U{FEFF}', '\U{2028}', '\U{2029}',
                   '\U{1680}', '\U{2000}', '\U{2001}', '\U{2002}', '\U{2003}', '\U{2004}', '\U{2005}', '\U{2006}',
                   '\U{2007}', '\U{2008}', '\U{2009}', '\U{200A}', '\U{202F}', '\U{205F}', '\U{3000}'}

  function TrimLeft(s: string): string {
    if s != [] && s[0] in SPACES then TrimLeft(s[1..]) else s
  }

  function TrimRight(s: string): string {
    if s != [] && s[|s| - 1] in SPACES then TrimRight(s[..|s| - 1]) else s
  }

  function Trim(s: string): string {
    TrimRight(TrimLeft(s))
  }

  predicate Blank(s: string) {
    forall c <- s :: c in SPACES
  }

  lemma {:induction false} TrimLeftDrops(pad: string, s: string)
    requires Blank(pad) && (s == [] || s[0] !in SPACES)
    ensures TrimLeft(pad + s) == s
  {
    if pad == [] {
      assert pad + s == s;
    } else {
      assert pad[0] in pad;
      assert (pad + s)[1..] == pad[1..] + s;
      TrimLeftDrops(pad[1..], s);
    }
  }

  lemma {:induction false} TrimRightDrops(s: string, pad: string)
    requires Blank(pad) && (s == [] || s[|s| - 1] !in SPACES)
    ensures TrimRight(s + pad) == s
  {
    if pad == [] {
      assert s + pad == s;
    } else {
      var last := |pad| - 1;
      assert pad[last] in pad;
      assert (s + pad)[..|s + pad| - 1] == s + pad[..last];
      TrimRightDrops(s, pad[..last]);
    }
  }

  lemma TrimmedIs(left: string, body: string, right: string)
    requires Blank(left) && Blank(right) && body != [] && body[0] !in SPACES && body[|body| - 1] !in SPACES
    ensures Trim(left + (body + right)) == body
  {
    TrimLeftDrops(left, body + right);
    TrimRightDrops(body, right);
  }

  lemma {:induction false} TrimLeftSplits(s: string) returns (pad: string)
    ensures Blank(pad) && s == pad + TrimLeft(s)
  {
    pad := [];
    if s != [] && s[0] in SPACES {
      var rest := TrimLeftSplits(s[1..]);
      pad := [s[0]] + rest;
      assert s == [s[0]] + s[1..];
    }
  }

  lemma {:induction false} TrimRightSplits(s: string) returns (pad: string)
    ensures Blank(pad) && s == TrimRight(s) + pad
  {
    pad := [];
    if s != [] && s[|s| - 1] in SPACES {
      var rest := TrimRightSplits(s[..|s| - 1]);
      pad := rest + [s[|s| - 1]];
      assert s == s[..|s| - 1] + [s[|s| - 1]];
    }
  }

  // ── Splitting and joining ──────────────────────────────────────────────────

  /** The source's `text.split(sep)`. */
  function Split(text: string, sep: char): (parts: seq<string>)
    ensures parts != []
  {
    if text == "" then [""]
    else
      var before, c := Split(text[..|text| - 1], sep), text[|text| - 1];
      if c == sep then before + [""] else before[|before| - 1 := before[|before| - 1] + [c]]
  }

  function Join(parts: seq<string>, sep: char): string {
    if parts == [] then ""
    else if |parts| == 1 then parts[0]
    else Join(parts[..|parts| - 1], sep) + [sep] + parts[|parts| - 1]
  }

  predicate Whole(parts: seq<string>, sep: char) {
    forall i :: 0 <= i < |parts| ==> sep !in parts[i]
  }

  /** Longer last part, longer text. */
  lemma JoinExtendsLast(parts: seq<string>, more: string, sep: char)
    requires parts != []
    ensures Join(parts[|parts| - 1 := parts[|parts| - 1] + more], sep) == Join(parts, sep) + more
  {
  }

  lemma {:induction false} SplitJoins(text: string, sep: char)
    ensures Join(Split(text, sep), sep) == text && Whole(Split(text, sep), sep)
  {
    if text != "" {
      var before, c := Split(text[..|text| - 1], sep), text[|text| - 1];
      SplitJoins(text[..|text| - 1], sep);
      assert text == text[..|text| - 1] + [c];
      if c == sep {
        assert (before + [""])[..|before|] == before;
      } else {
        JoinExtendsLast(before, [c], sep);
      }
    }
  }

  lemma {:induction false} SplitExtendsLast(text: string, more: string, sep: char)
    requires sep !in more
    ensures var before := Split(text, sep);
            Split(text + more, sep) == before[|before| - 1 := before[|before| - 1] + more]
  {
    var before := Split(text, sep);
    if more == "" {
      assert text + more == text;
      assert before[|before| - 1] + more == before[|before| - 1];
    } else {
      var front, c := more[..|more| - 1], more[|more| - 1];
      assert c in more;
      SplitExtendsLast(text, front, sep);
      assert (text + more)[..|text + more| - 1] == text + front;
      assert before[|before| - 1] + front + [c] == before[|before| - 1] + more;
    }
  }

  lemma SplitAddsPart(text: string, part: string, sep: char)
    requires sep !in part
    ensures Split(text + [sep] + part, sep) == Split(text, sep) + [part]
  {
    assert (text + [sep])[..|text|] == text;
    SplitExtendsLast(text + [sep], part, sep);
    assert "" + part == part;
  }

  /** Parts that hold no separator come back as they were joined. */
  lemma {:induction false} JoinSplits(parts: seq<string>, sep: char)
    requires parts != [] && Whole(parts, sep)
    ensures Split(Join(parts, sep), sep) == parts
  {
    var front, last := parts[..|parts| - 1], parts[|parts| - 1];
    if |parts| == 1 {
      SplitExtendsLast("", last, sep);
      assert "" + last == last;
    } else {
      JoinSplits(front, sep);
      SplitAddsPart(Join(front, sep), last, sep);
    }
  }
}
