/**
 * `line_info_at`: zero-based (line, column) of an offset, computed on demand
 * by counting newlines before it.
 */
module Position {
  import opened Results

  /** Number of '\n' in `s` (`str.count`). */
  function CountNewlines(s: string): (n: nat)
    ensures n <= |s|
  {
    if s == [] then 0 else CountNewlines(s[..|s| - 1]) + (if s[|s| - 1] == '\n' then 1 else 0)
  }

  /** Offset of the last '\n' in `s`, or -1 (`str.rfind`). */
  function LastNewline(s: string): (k: int)
    ensures -1 <= k < |s|
    ensures k >= 0 ==> s[k] == '\n'
    ensures forall j :: k < j < |s| ==> s[j] != '\n'
  {
    if s == [] then -1
    else if s[|s| - 1] == '\n' then |s| - 1
    else LastNewline(s[..|s| - 1])
  }

  /** `line_info_at(stream, index)`; raises ValueError past the end. */
  function LineInfoAt(s: string, index: nat): (o: Outcome<(nat, nat)>)
    ensures o.Raised? <==> index > |s|
    ensures o.Raised? ==> o.error == ValueError("invalid index")
  {
    if index > |s| then Raised(ValueError("invalid index"))
    else
      var line := CountNewlines(s[..index]);
      var lastNl := LastNewline(s[..index]);
      Ok((line, index - (lastNl + 1)))
  }

  /** Reference definition: a cursor that walks the text one character at a
      time, moving to the next line after each newline. */
  function Walk(text: string): (nat, nat) {
    if text == [] then (0, 0)
    else
      var before := Walk(text[..|text| - 1]);
      if text[|text| - 1] == '\n' then (before.0 + 1, 0) else (before.0, before.1 + 1)
  }

  /** The cursor's line is the number of newlines walked over, and its
      column the distance from the character after the last one. */
  lemma {:induction false} WalkCounts(text: string)
    ensures Walk(text) == (CountNewlines(text), |text| - (LastNewline(text) + 1))
  {
    if text != [] {
      WalkCounts(text[..|text| - 1]);
    }
  }

  /** `line_info_at` agrees with the cursor at every offset inside the text. */
  lemma LineInfoIsWalk(s: string, index: nat)
    requires index <= |s|
    ensures LineInfoAt(s, index) == Ok(Walk(s[..index]))
  {
    WalkCounts(s[..index]);
  }

  /** The cursor after one more character. */
  lemma WalkSnoc(text: string, c: char)
    ensures Walk(text + [c]) == if c == '\n' then (Walk(text).0 + 1, 0) else (Walk(text).0, Walk(text).1 + 1)
  {
    var t := text + [c];
    assert t[..|t| - 1] == text && t[|t| - 1] == c;
  }

  /** The positions of "abc\ndef" the library's own tests check. */
  lemma LineInfoExample(t: string)
    requires t == "abc\ndef"
    ensures LineInfoAt(t, 0) == Ok((0, 0))
    ensures LineInfoAt(t, 2) == Ok((0, 2))
    ensures LineInfoAt(t, 3) == Ok((0, 3))
    ensures LineInfoAt(t, 4) == Ok((1, 0))
    ensures LineInfoAt(t, 7) == Ok((1, 3))
    ensures LineInfoAt(t, 8) == Raised(ValueError("invalid index"))
  {
    FirstLineExample(t);
    SecondLineExample(t);
  }

  lemma FirstLineExample(t: string)
    requires t == "abc\ndef"
    ensures LineInfoAt(t, 0) == Ok((0, 0))
    ensures LineInfoAt(t, 2) == Ok((0, 2))
    ensures LineInfoAt(t, 3) == Ok((0, 3))
  {
    WalkSnoc([], 'a');
    WalkSnoc("a", 'b');
    WalkSnoc("ab", 'c');
    assert [] + ['a'] == "a" && "a" + ['b'] == "ab" && "ab" + ['c'] == "abc";
    assert t[..0] == [] && t[..2] == "ab" && t[..3] == "abc";
    LineInfoIsWalk(t, 0);
    LineInfoIsWalk(t, 2);
    LineInfoIsWalk(t, 3);
  }

  lemma SecondLineExample(t: string)
    requires t == "abc\ndef"
    ensures LineInfoAt(t, 4) == Ok((1, 0))
    ensures LineInfoAt(t, 7) == Ok((1, 3))
  {
    WalkSnoc([], 'a');
    WalkSnoc("a", 'b');
    WalkSnoc("ab", 'c');
    WalkSnoc("abc", '\n');
    WalkSnoc("abc\n", 'd');
    WalkSnoc("abc\nd", 'e');
    WalkSnoc("abc\nde", 'f');
    assert "abc" + ['\n'] == "abc\n" && "abc\nde" + ['f'] == t;
    assert Walk("abc\n") == (1, 0);
    assert "abc\n" + ['d'] == "abc\nd" && "abc\nd" + ['e'] == "abc\nde";
    assert Walk("abc\nde") == (1, 2);
    assert t[..4] == "abc\n" && t[..7] == t;
    LineInfoIsWalk(t, 4);
    LineInfoIsWalk(t, 7);
  }
}
