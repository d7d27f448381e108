/** Removal of Markdown code fences around a model's JSON answer: every match
    of the global regular expression /```json\n?|\n?```/ is replaced by the
    empty string. At each position the engine tries the alternatives in order:
    "```json" with a following newline if there is one, then "\n```", then
    "```"; after a match it continues behind it. */
module Fences {
  import opened Strings

  const Fence := "```"
  const OpeningFence := "```json"

  /** The text with every fence match removed. */
  function StripFences(s: string): (r: string)
    ensures |r| <= |s|
    decreases |s|
  {
    if OpeningFence <= s then
      if |s| > 7 && s[7] == '\n' then StripFences(s[8..]) else StripFences(s[7..])
    else if "\n" + Fence <= s then StripFences(s[4..])
    else if Fence <= s then StripFences(s[3..])
    else if |s| == 0 then ""
    else [s[0]] + StripFences(s[1..])
  }

  /** Text without "```" comes through untouched. */
  lemma {:induction false} NoFenceUnchanged(s: string)
    requires !Includes(s, Fence)
    ensures StripFences(s) == s
    decreases |s|
  {
    if |s| > 0 {
      assert !OccursAt(s, Fence, 0);
      NoFenceUnchanged(s[1..]);
      assert s == [s[0]] + s[1..];
    }
  }

  /** A body free of backticks followed by a closing fence on its own line
      loses just that fence and the newline before it. */
  lemma {:induction false} ClosingFenceRemoved(body: string)
    requires '`' !in body
    ensures StripFences(body + "\n" + Fence) == body
    decreases |body|
  {
    var s := body + "\n" + Fence;
    if |body| == 0 {
      assert s == "\n" + Fence;
      assert s[4..] == "";
    } else {
      assert s[0] == body[0] && body[0] != '`';
      assert !(OpeningFence <= s) && !(Fence <= s);
      assert !("\n" + Fence <= s) by {
        if |body| == 1 {
          assert s[1] == '\n';
        } else {
          assert s[1] == body[1] && body[1] != '`';
        }
      }
      ClosingFenceRemoved(body[1..]);
      assert s[1..] == body[1..] + "\n" + Fence;
      assert body == [body[0]] + body[1..];
    }
  }

  /** The usual fenced answer "```json\n{...}\n```" yields the bare JSON. */
  lemma FencedJsonUnwrapped(body: string)
    requires '`' !in body
    ensures StripFences(OpeningFence + "\n" + body + "\n" + Fence) == body
  {
    var s := OpeningFence + "\n" + body + "\n" + Fence;
    assert OpeningFence <= s && s[7] == '\n';
    assert s[8..] == body + "\n" + Fence;
    ClosingFenceRemoved(body);
  }

  /** A character that starts no alternative is copied. */
  lemma PlainStep(s: string)
    requires |s| > 0 && s[0] != '`' && (s[0] == '\n' ==> |s| == 1 || s[1] != '`')
    ensures StripFences(s) == [s[0]] + StripFences(s[1..])
  {
    assert !(OpeningFence <= s) && !(Fence <= s) && !("\n" + Fence <= s);
  }

  /** "```json" without a newline after it is removed alone. */
  lemma OpeningStep(s: string)
    requires OpeningFence <= s && (|s| > 7 ==> s[7] != '\n')
    ensures StripFences(s) == StripFences(s[7..])
  {
  }

  /** A "```" not followed by "json" is removed alone. */
  lemma BareStep(s: string)
    requires Fence <= s && !(OpeningFence <= s)
    ensures StripFences(s) == StripFences(s[3..])
  {
    assert s[0] == '`';
  }

  /** Backtick-free text not ending in a newline is copied unchanged up to a
      following backtick: no alternative can match inside it. */
  lemma {:induction false} PlainPrefixCopied(a: string, t: string)
    requires '`' !in a && (|a| > 0 ==> a[|a| - 1] != '\n')
    requires |t| > 0 && t[0] == '`'
    ensures StripFences(a + t) == a + StripFences(t)
    decreases |a|
  {
    if |a| > 0 {
      var tail := a[1..];
      assert '`' !in tail by {
        assert forall c :: c in tail ==> c in a;
      }
      assert |tail| > 0 ==> tail[|tail| - 1] == a[|a| - 1];
      PlainPrefixCopied(tail, t);
      PlainPrefixStep(a, t);
    } else {
      assert a + t == t && a + StripFences(t) == StripFences(t);
    }
  }

  /** One step of the copying: the first character of the prefix. */
  lemma PlainPrefixStep(a: string, t: string)
    requires |a| > 0 && '`' !in a && a[|a| - 1] != '\n'
    requires |t| > 0 && t[0] == '`'
    requires StripFences(a[1..] + t) == a[1..] + StripFences(t)
    ensures StripFences(a + t) == a + StripFences(t)
  {
    var s, tail := a + t, a[1..];
    assert s[0] == a[0] && a[0] in a;
    if a[0] == '\n' {
      assert |a| > 1 && s[1] == a[1] && a[1] in a;
    }
    var r := StripFences(t);
    PlainStep(s);
    DropFirst(a, t);
    assert StripFences(s) == [a[0]] + (tail + r);
    ConsAppend(a[0], tail, r);
    assert [a[0]] + tail == a;
  }

  lemma DropFirst(a: string, t: string)
    requires |a| > 0
    ensures (a + t)[1..] == a[1..] + t
  {
  }

  lemma ConsAppend(c: char, x: string, y: string)
    ensures [c] + (x + y) == ([c] + x) + y
  {
  }

  /** A bare "```" without a newline before it and without "json" after it is
      removed on its own. */
  lemma BareFenceRemoved(a: string, b: string)
    requires '`' !in a && '`' !in b
    requires |a| > 0 ==> a[|a| - 1] != '\n'
    requires !("json" <= b)
    ensures StripFences(a + Fence + b) == a + b
  {
    var t := Fence + b;
    assert a + Fence + b == a + t;
    PlainPrefixCopied(a, t);
    FenceBeforePlain(b);
    AbsentCharacter(b, Fence, '`');
    NoFenceUnchanged(b);
  }

  /** "```" followed by text without backticks or a leading "json" leaves
      just that text behind it. */
  lemma FenceBeforePlain(b: string)
    requires !("json" <= b)
    ensures StripFences(Fence + b) == StripFences(b)
  {
    var t := Fence + b;
    if |b| >= 4 {
      assert t[3..7] == b[..4];
    }
    assert OpeningFence[3..7] == "json";
    assert !(OpeningFence <= t);
    assert Fence <= t && t[3..] == b;
    BareStep(t);
  }

  /** "```json" with no newline after it is removed just the same, and so is
      a closing fence with no newline before it. */
  lemma InlineFencedJsonUnwrapped(body: string)
    requires '`' !in body
    requires |body| > 0 ==> body[0] != '\n' && body[|body| - 1] != '\n'
    ensures StripFences(OpeningFence + body + Fence) == body
  {
    var rest := body + Fence;
    assert OpeningFence + body + Fence == OpeningFence + rest;
    assert rest[0] != '\n';
    OpeningBeforePlain(rest);
    assert rest == body + Fence + "" && body + "" == body;
    BareFenceRemoved(body, "");
  }

  /** "```json" followed by anything but a newline leaves just what follows. */
  lemma OpeningBeforePlain(rest: string)
    requires |rest| > 0 && rest[0] != '\n'
    ensures StripFences(OpeningFence + rest) == StripFences(rest)
  {
    var s := OpeningFence + rest;
    assert s[7..] == rest && s[7] == rest[0];
    OpeningStep(s);
  }

  /** The newline-free form of a fenced answer. */
  lemma InlineFenceExample(s: string)
    requires s == "```json{}```"
    ensures StripFences(s) == "{}"
  {
    assert s == OpeningFence + "{}" + Fence;
    InlineFencedJsonUnwrapped("{}");
  }

  /** A newline in front of an opening fence is taken by the "\n```"
      alternative, so the word "json" stays behind. */
  lemma NewlineBeforeOpeningFence(s: string)
    requires s == "\n```json{}"
    ensures StripFences(s) == "json{}"
  {
    assert s[0] == '\n' && s[..4] == "\n" + Fence;
    var t := s[4..];
    assert t == "json{}";
    AbsentCharacter(t, Fence, '`');
    NoFenceUnchanged(t);
  }
}
