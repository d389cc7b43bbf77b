/**
  The cleaning that cot.mjs, sbp.mjs and hyde.mjs apply to the language
  model's query-expansion reply before parsing it: trim it, and if it then
  starts with three backticks, remove every match of the regular expression
  /```(json)?/g and trim again.
 */
module Fence {
  import opened Text

  const Backticks := "```"

  /** No three consecutive backticks anywhere in `s`. */
  predicate NoBacktickRun(s: string) {
    forall i :: 0 <= i < |s| - 2 ==> !(s[i] == '`' && s[i + 1] == '`' && s[i + 2] == '`')
  }

  /**
    `s.replace(/```(json)?/g, '')`: the scan goes left to right, at each
    position the longer alternative "```json" is tried first, and scanning
    resumes after the removed match.
   */
  function RemoveFences(s: string): (r: string)
    ensures |r| <= |s|
    decreases |s|
  {
    if StartsWith(s, "```json") then RemoveFences(s[7..])
    else if StartsWith(s, Backticks) then RemoveFences(s[3..])
    else if s == [] then []
    else [s[0]] + RemoveFences(s[1..])
  }

  /** A kept backtick is never followed by two more backticks in the output. */
  lemma {:induction false} RemoveFencesLeavesNoRun(s: string)
    ensures NoBacktickRun(RemoveFences(s))
    decreases |s|
  {
    if StartsWith(s, "```json") {
      RemoveFencesLeavesNoRun(s[7..]);
    } else if StartsWith(s, Backticks) {
      RemoveFencesLeavesNoRun(s[3..]);
    } else if s != [] {
      var t := s[1..];
      var rt := RemoveFences(t);
      RemoveFencesLeavesNoRun(t);
      var r := [s[0]] + rt;
      assert r == RemoveFences(s);
      if t != [] && t[0] != '`' {
        RemoveFencesKeepsPlainHead(t);
      }
      if s[0] == '`' && |t| >= 2 && t[0] == '`' {
        // s does not start with three backticks, so the character after t's head is kept
        var u := t[1..];
        assert s[..3] == [s[0], t[0], u[0]];
        assert u[0] != '`';
        assert !StartsWith(t, Backticks) by {
          if |t| >= 3 { assert t[..3][1] == u[0]; }
        }
        assert !StartsWith(t, "```json") by {
          if |t| >= 7 { assert t[..7][1] == u[0]; }
        }
        assert rt == [t[0]] + RemoveFences(u);
        RemoveFencesKeepsPlainHead(u);
        assert rt[1] == u[0];
      }
      forall i | 0 <= i < |r| - 2
        ensures !(r[i] == '`' && r[i + 1] == '`' && r[i + 2] == '`')
      {
        if i > 0 {
          assert r[i] == rt[i - 1] && r[i + 1] == rt[i] && r[i + 2] == rt[i + 1];
        }
      }
    }
  }

  /** A text with no backtick passes through the regular expression unchanged, whatever follows it. */
  lemma {:induction false} RemoveFencesSkipsPlainText(x: string, y: string)
    requires '`' !in x
    ensures RemoveFences(x + y) == x + RemoveFences(y)
    decreases |x|
  {
    if x != [] {
      var s := x + y;
      assert s[0] == x[0];
      assert s[1..] == x[1..] + y;
      RemoveFencesKeepsPlainHead(s);
      assert '`' !in x[1..];
      RemoveFencesSkipsPlainText(x[1..], y);
      assert [x[0]] + x[1..] == x;
      calc {
        RemoveFences(s);
        [x[0]] + RemoveFences(x[1..] + y);
        [x[0]] + (x[1..] + RemoveFences(y));
        x + RemoveFences(y);
      }
    } else {
      assert x + y == y;
    }
  }

  lemma RemoveFencesKeepsPlainHead(s: string)
    requires s != [] && s[0] != '`'
    ensures RemoveFences(s) == [s[0]] + RemoveFences(s[1..])
  {
    assert !StartsWith(s, Backticks) && !StartsWith(s, "```json");
  }

  /** The text handed to `JSON.parse`. */
  function Cleaned(content: string): string {
    var t := Trim(content);
    if StartsWith(t, Backticks) then Trim(RemoveFences(t)) else t
  }

  /** The cleaning step of cot.mjs, sbp.mjs and hyde.mjs, reassigning `cleanedContent` as they do. */
  method CleanResponse(content: string) returns (cleaned: string)
    ensures cleaned == Cleaned(content)
  {
    cleaned := Trim(content);
    if StartsWith(cleaned, Backticks) {
      cleaned := Trim(RemoveFences(cleaned));
    }
  }

  lemma NoBacktickRunSlice(s: string, lo: int, hi: int)
    requires NoBacktickRun(s) && 0 <= lo <= hi <= |s|
    ensures NoBacktickRun(s[lo..hi])
  {
    var t := s[lo..hi];
    forall i | 0 <= i < |t| - 2
      ensures !(t[i] == '`' && t[i + 1] == '`' && t[i + 2] == '`')
    {
      assert t[i] == s[lo + i] && t[i + 1] == s[lo + i + 1] && t[i + 2] == s[lo + i + 2];
    }
  }

  /**
    The cleaned text has no whitespace at either end and never starts with
    three backticks; after a fence was found it has no run of three backticks
    at all. Without a leading fence the text is only trimmed.
   */
  lemma CleanedShape(content: string)
    ensures Trimmed(Cleaned(content))
    ensures !StartsWith(Cleaned(content), Backticks)
    ensures StartsWith(Trim(content), Backticks) ==> NoBacktickRun(Cleaned(content))
    ensures !StartsWith(Trim(content), Backticks) ==> Cleaned(content) == Trim(content)
  {
    var t := Trim(content);
    if StartsWith(t, Backticks) {
      RemoveFencesLeavesNoRun(t);
      NoBacktickRunTrim(RemoveFences(t));
      NoBacktickRunNoFence(Cleaned(content));
    }
  }

  lemma NoBacktickRunNoFence(c: string)
    requires NoBacktickRun(c)
    ensures !StartsWith(c, Backticks)
  {
    if |c| >= 3 {
      assert !(c[0] == '`' && c[1] == '`' && c[2] == '`');
      assert c[..3] != Backticks by { assert c[..3][0] == c[0] && c[..3][1] == c[1] && c[..3][2] == c[2]; }
    }
  }

  lemma NoBacktickRunTrim(s: string)
    requires NoBacktickRun(s)
    ensures NoBacktickRun(Trim(s))
  {
    var a := TrimStart(s);
    assert a == s[|s| - |a|..];
    NoBacktickRunSlice(s, |s| - |a|, |s|);
    var b := TrimEnd(a);
    assert b == a[..|b|];
    NoBacktickRunSlice(a, 0, |b|);
    assert Trim(s) == b;
  }

  /** Cleaning a cleaned text changes nothing. */
  lemma CleanedIdempotent(content: string)
    ensures Cleaned(Cleaned(content)) == Cleaned(content)
  {
    var c := Cleaned(content);
    CleanedShape(content);
    TrimOfTrimmed(c);
  }

  /** Removing the markers of a fenced block leaves the line breaks around its backtick-free body. */
  lemma FenceMarkersRemoved(x: string, opening: string)
    requires '`' !in x
    requires opening == "```json" || opening == Backticks
    ensures RemoveFences(opening + "\n" + x + "\n" + Backticks) == "\n" + x + "\n"
  {
    var body := "\n" + x + "\n";
    var s := opening + "\n" + x + "\n" + Backticks;
    assert s == opening + (body + Backticks);
    assert '`' !in body;
    if opening == "```json" {
      assert StartsWith(s, "```json") by { assert s[..7] == opening; }
      assert s[7..] == body + Backticks;
    } else {
      assert !StartsWith(s, "```json") by { assert s[3] == '\n'; }
      assert StartsWith(s, Backticks) by { assert s[..3] == opening; }
      assert s[3..] == body + Backticks;
    }
    RemoveFencesSkipsPlainText(body, Backticks);
    assert RemoveFences(Backticks) == [] by { assert Backticks[3..] == []; }
    assert body + [] == body;
  }

  /**
    A reply wrapped in a fenced code block, opened by "```json" or by "```"
    on its own line and closed by "```", cleans to the same text as the bare
    reply, provided the reply holds no backtick and no surrounding whitespace.
   */
  lemma FencedEqualsUnfenced(x: string, opening: string)
    requires Trimmed(x) && '`' !in x
    requires opening == "```json" || opening == Backticks
    ensures Cleaned(opening + "\n" + x + "\n" + Backticks) == Cleaned(x) == x
  {
    var s := opening + "\n" + x + "\n" + Backticks;
    FencedBlockShape(x, opening);
    TrimOfTrimmed(s);
    FenceMarkersRemoved(x, opening);
    TrimNewlines(x);
    PlainTextCleaned(x);
  }

  lemma FencedBlockShape(x: string, opening: string)
    requires opening == "```json" || opening == Backticks
    ensures Trimmed(opening + "\n" + x + "\n" + Backticks)
    ensures StartsWith(opening + "\n" + x + "\n" + Backticks, Backticks)
  {
    var s := opening + "\n" + x + "\n" + Backticks;
    assert s[0] == '`' && s[|s| - 1] == '`';
    assert s[..3] == opening[..3];
  }

  lemma PlainTextCleaned(x: string)
    requires Trimmed(x) && '`' !in x
    ensures Cleaned(x) == x
  {
    TrimOfTrimmed(x);
    if |x| >= 3 { assert x[..3][0] == x[0]; }
  }

  /** The fenced reply ```json ["a","b"] ``` cleans to ["a","b"], the same as the bare reply. */
  lemma FencedExample()
    ensures Cleaned("```json\n[\"a\",\"b\"]\n```") == Cleaned("[\"a\",\"b\"]") == "[\"a\",\"b\"]"
  {
    var x := "[\"a\",\"b\"]";
    assert "```json\n[\"a\",\"b\"]\n```" == "```json" + "\n" + x + "\n" + Backticks;
    assert '`' !in x;
    FencedEqualsUnfenced(x, "```json");
  }
}
