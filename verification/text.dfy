// White space at the ends of a text.
module Text {

  predicate IsSpace(c: char) {
    || '\t' <= c <= '\r' || c == ' ' || c == '\U{85}' || c == '\U{A0}' || c == '\U{1680}'
    || '\U{2000}' <= c <= '\U{200A}' || c == '\U{2028}' || c == '\U{2029}' || c == '\U{202F}' || c == '\U{205F}'
    || c == '\U{3000}'
  }

  function TrimLeft(s: string): string {
    if s != "" && IsSpace(s[0]) then TrimLeft(s[1..]) else s
  }

  function TrimRight(s: string): string {
    if s != "" && IsSpace(s[|s| - 1]) then TrimRight(s[..|s| - 1]) else s
  }

  // strings.TrimSpace.
  function TrimSpace(s: string): string {
    TrimRight(TrimLeft(s))
  }

  ghost predicate AllSpace(s: string) {
    forall i | 0 <= i < |s| :: IsSpace(s[i])
  }

  // The characters with the White_Space property of Unicode.
  lemma SpacesAre(c: char)
    ensures IsSpace(c) <==>
            || c in " \t\n\r\U{B}\U{C}\U{85}\U{A0}\U{1680}\U{2000}\U{2001}\U{2002}\U{2003}\U{2004}\U{2005}\U{2006}"
            || c in "\U{2007}\U{2008}\U{2009}\U{200A}\U{2028}\U{2029}\U{202F}\U{205F}\U{3000}"
  {
  }

  lemma {:induction false} TrimsLeft(before: string, text: string)
    requires AllSpace(before) && (text != "" ==> !IsSpace(text[0]))
    ensures TrimLeft(before + text) == text
  {
    if before == "" {
      assert before + text == text;
    } else {
      assert (before + text)[0] == before[0] && (before + text)[1..] == before[1..] + text;
      TrimsLeft(before[1..], text);
    }
  }

  lemma {:induction false} TrimsRight(text: string, after: string)
    requires AllSpace(after) && (text != "" ==> !IsSpace(text[|text| - 1]))
    ensures TrimRight(text + after) == text
  {
    var s := text + after;
    if after == "" {
      assert s == text;
    } else {
      assert s[|s| - 1] == after[|after| - 1] && s[..|s| - 1] == text + after[..|after| - 1];
      TrimsRight(text, after[..|after| - 1]);
    }
  }

  // What is left of a text that has any space around it.
  lemma TrimsAround(before: string, text: string, after: string)
    requires AllSpace(before) && AllSpace(after)
    requires text != "" ==> !IsSpace(text[0]) && !IsSpace(text[|text| - 1])
    ensures TrimSpace(before + text + after) == text
  {
    if text == "" {
      var s := before + text + after;
      assert s == s + "" && AllSpace(s);
      TrimsLeft(s, "");
    } else {
      assert before + text + after == before + (text + after);
      TrimsLeft(before, text + after);
      TrimsRight(text, after);
    }
  }
}
