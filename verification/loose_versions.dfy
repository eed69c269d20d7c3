// What comparing versions makes of any text at all: missing segments, segments that are no numbers, too many of them,
// and space around.
module LooseVersions {
  import opened Decimal
  import opened Text
  import opened Version
  import opened Semver

  // What a segment counts as: its number, if it is written in digits after at most a plus sign and fits a 64-bit
  // integer, and zero otherwise.
  function Counts(segment: string): nat {
    var digits := if segment != "" && segment[0] == '+' then segment[1..] else segment;
    if digits != "" && AllDigits(digits) && Val(digits) <= 0x7fff_ffff_ffff_ffff then Val(digits) else 0
  }

  function CountsAt(segments: seq<string>, i: nat): nat {
    if i < |segments| then Counts(segments[i]) else 0
  }

  // The core of a version is cut at its dots, and the rest of the text, after a dash, is its pre-release.
  ghost predicate IsLoose(segments: seq<string>, pre: string, dashed: bool) {
    && segments != []
    && (forall i | 0 <= i < |segments| :: '.' !in segments[i] && '-' !in segments[i])
    && (!dashed ==> pre == "")
  }

  function LooseText(segments: seq<string>, pre: string, dashed: bool): string {
    Join(segments) + if dashed then "-" + pre else ""
  }

  lemma CountsIsAtoi(segment: string)
    requires '-' !in segment
    ensures Counts(segment) == if Atoi(segment).Some? then Atoi(segment).value else 0
  {
    assert segment != "" ==> segment[0] in segment;
  }

  lemma {:induction false} JoinLacks(parts: seq<string>, c: char)
    requires c != '.' && forall i | 0 <= i < |parts| :: c !in parts[i]
    ensures c !in Join(parts)
  {
    if |parts| > 1 {
      JoinLacks(parts[1..], c);
    }
  }

  lemma {:induction false} JoinHasDot(parts: seq<string>)
    requires |parts| > 1
    ensures '.' in Join(parts) && Join(parts) == parts[0] + ['.'] + Join(parts[1..])
  {
  }

  lemma SplitStep(parts: seq<string>, n: nat)
    requires n > 1 && |parts| > 1 && '.' !in parts[0]
    ensures SplitN(Join(parts), '.', n) == [parts[0]] + SplitN(Join(parts[1..]), '.', n - 1)
  {
    JoinHasDot(parts);
    CutAt(parts[0], '.', Join(parts[1..]));
  }

  lemma SplitSingle(parts: seq<string>, n: nat)
    requires n > 0 && |parts| == 1 && '.' !in parts[0]
    ensures SplitN(Join(parts), '.', n) == parts
  {
  }

  lemma CutInTwo(parts: seq<string>)
    requires parts != [] && '.' !in parts[0]
    ensures SplitN(Join(parts), '.', 2) == if |parts| == 1 then parts else [parts[0], Join(parts[1..])]
  {
    if |parts| == 1 {
      SplitSingle(parts, 2);
    } else {
      SplitStep(parts, 2);
    }
  }

  // The core is cut into three segments at most, the last of which holds whatever dots are left.
  lemma CutInThree(parts: seq<string>)
    requires |parts| > 1 && '.' !in parts[0] && '.' !in parts[1]
    ensures SplitN(Join(parts), '.', 3) ==
            [parts[0]] + if |parts| == 2 then parts[1..] else [parts[1], Join(parts[1..][1..])]
  {
    SplitStep(parts, 3);
    CutInTwo(parts[1..]);
  }

  lemma JoinOne(parts: seq<string>)
    requires |parts| == 1
    ensures Join(parts) == parts[0]
  {
  }

  lemma SplitThree(parts: seq<string>)
    requires parts != [] && forall i | 0 <= i < |parts| :: '.' !in parts[i]
    ensures var cut := SplitN(Join(parts), '.', 3);
            && cut[0] == parts[0]
            && (|cut| > 1 <==> |parts| > 1) && (|parts| > 1 ==> cut[1] == parts[1])
            && (|cut| > 2 <==> |parts| > 2) && (|parts| == 3 ==> cut[2] == parts[2])
            && (|parts| > 3 ==> '.' in cut[2])
  {
    if |parts| == 1 {
      SplitSingle(parts, 3);
    } else {
      CutInThree(parts);
      var last := parts[1..][1..];
      if |parts| == 3 {
        JoinOne(last);
      } else if |parts| > 3 {
        JoinHasDot(last);
      }
    }
  }

  lemma SegmentCounts(parts: seq<string>, i: nat)
    requires i < |parts| ==> '-' !in parts[i]
    ensures Segment(parts, i) == CountsAt(parts, i)
  {
    if i < |parts| {
      CountsIsAtoi(parts[i]);
    }
  }

  lemma SegmentsCount(segments: seq<string>)
    requires IsLoose(segments, "", false)
    ensures var parts := SplitN(Join(segments), '.', 3);
            && Segment(parts, 0) == CountsAt(segments, 0)
            && Segment(parts, 1) == CountsAt(segments, 1)
            && Segment(parts, 2) == if |segments| <= 3 then CountsAt(segments, 2) else 0
  {
    var parts := SplitN(Join(segments), '.', 3);
    SplitThree(segments);
    SegmentCounts(segments, 0);
    SegmentCounts(segments, 1);
    SegmentCounts(segments, 2);
    if |segments| > 3 {
      DotIsNoNumber(parts[2]);
    }
  }

  lemma DotIsNoNumber(s: string)
    requires '.' in s
    ensures Atoi(s).None?
  {
    var i :| 0 <= i < |s| && s[i] == '.';
    assert s[0] == '+' || s[0] == '-' ==> i > 0 && s[1..][i - 1] == '.';
  }

  // Space around is dropped, and a leading v is put on where there is none; "latest" and nothing at all stay as they
  // are.
  lemma NormalizedIs(before: string, text: string, after: string)
    requires AllSpace(before) && AllSpace(after)
    requires text != "" ==> !IsSpace(text[0]) && !IsSpace(text[|text| - 1])
    ensures Normalize(before + text + after) ==
            if text == "" || text == "latest" || text[0] == 'v' then text else "v" + text
  {
    TrimsAround(before, text, after);
  }

  // Any text with a core: tagged with a leading v or not, with a pre-release or not.
  lemma {:induction false} AnyTextParses(before: string, tagged: bool, segments: seq<string>, pre: string, dashed: bool,
                                        after: string)
    requires AllSpace(before) && AllSpace(after) && IsLoose(segments, pre, dashed)
    requires var text := (if tagged then "v" else "") + LooseText(segments, pre, dashed);
             && text != "" && !IsSpace(text[0]) && !IsSpace(text[|text| - 1]) && (text[0] == 'v' <==> tagged)
    ensures var text := before + ((if tagged then "v" else "") + LooseText(segments, pre, dashed)) + after;
            && ParseVersion(text).major == CountsAt(segments, 0)
            && ParseVersion(text).minor == CountsAt(segments, 1)
            && ParseVersion(text).patch == (if |segments| <= 3 then CountsAt(segments, 2) else 0)
            && Prerelease(text) == pre
  {
    var body := LooseText(segments, pre, dashed);
    var tag := if tagged then "v" else "";
    NormalizedIs(before, tag + body, after);
    var n := Normalize(before + (tag + body) + after);
    JoinLacks(segments, '-');
    SegmentsCount(segments);
    BodyIsCut(segments, pre, dashed);
    if tagged {
      assert n == "v" + body && n[1..] == body;
    } else {
      assert tag + body == body;
      if body == "latest" {
        LatestIsZero(segments, pre, dashed);
      } else {
        assert n == "v" + body && n[1..] == body;
      }
    }
  }

  lemma BodyIsCut(segments: seq<string>, pre: string, dashed: bool)
    requires IsLoose(segments, pre, dashed) && '-' !in Join(segments)
    ensures var body := LooseText(segments, pre, dashed);
            Before(body, '-') == Join(segments) && After(body, '-') == pre && After("v" + body, '-') == pre
  {
    var core := Join(segments);
    if dashed {
      CutsPre(core, pre);
      assert core + ("-" + pre) == core + ['-'] + pre;
      CutAt(core, '-', pre);
    } else {
      assert LooseText(segments, pre, dashed) == core;
      NothingToCut(core, '-');
      NothingToCut("v" + core, '-');
    }
  }

  lemma LatestIsZero(segments: seq<string>, pre: string, dashed: bool)
    requires IsLoose(segments, pre, dashed) && LooseText(segments, pre, dashed) == "latest"
    ensures After("latest", '-') == "" == pre && "latest"[0] != 'v'
  {
    NothingToCut("latest", '-');
    DashIsKept(Join(segments), pre);
  }

  lemma DashIsKept(core: string, pre: string)
    ensures '-' in core + ("-" + pre)
  {
    assert (core + ("-" + pre))[|core|] == '-';
  }
}
