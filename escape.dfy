/**
 * The two character-level writers of 2bsm.c: print_escaped, which writes a
 * string with the five XML special characters replaced by entities, and
 * indent, which writes a run of tabs.  Each character of the input is one
 * write to the stream.
 */
module Escape {
  import opened Output

  /** The text print_escaped writes for one character. */
  function EscapeChar(c: char): (r: string)
    ensures |r| >= 1
    ensures r[0] == '&' <==> c in {'"', '\'', '<', '>', '&'}
    ensures c !in {'"', '\'', '<', '>', '&'} ==> r == [c]
  {
    match c
    case '"' => "&quot;"
    case '\'' => "&apos;"
    case '<' => "&lt;"
    case '>' => "&gt;"
    case '&' => "&amp;"
    case _ => [c]
  }

  /** The whole text print_escaped writes for `s`. */
  function Escape(s: string): string
  {
    if s == [] then [] else EscapeChar(s[0]) + Escape(s[1..])
  }

  /** Reads entities back: the inverse of Escape. */
  function Unescape(t: string): string
    decreases |t|
  {
    if t == [] then []
    else if "&quot;" <= t then ['"'] + Unescape(t[6..])
    else if "&apos;" <= t then ['\''] + Unescape(t[6..])
    else if "&lt;" <= t then ['<'] + Unescape(t[4..])
    else if "&gt;" <= t then ['>'] + Unescape(t[4..])
    else if "&amp;" <= t then ['&'] + Unescape(t[5..])
    else [t[0]] + Unescape(t[1..])
  }

  lemma UnescapeStep(c: char, rest: string)
    ensures Unescape(EscapeChar(c) + rest) == [c] + Unescape(rest)
  {
    var e := EscapeChar(c);
    var t := e + rest;
    assert t[..|e|] == e;
    assert t[|e|..] == rest;
    if c !in {'"', '\'', '<', '>', '&'} {
      assert t[0] == c;
    } else if c == '&' {
      assert t[1] == 'a' && t[2] == 'm';
    } else if c == '>' {
      assert t[1] == 'g';
    } else if c == '<' {
      assert t[1] == 'l';
    } else if c == '\'' {
      assert t[1] == 'a';
    }
  }

  /** Escaping loses nothing: unescaping gives the original string back. */
  lemma {:induction false} UnescapeEscape(s: string)
    ensures Unescape(Escape(s)) == s
  {
    if s != [] {
      UnescapeStep(s[0], Escape(s[1..]));
      UnescapeEscape(s[1..]);
    }
  }

  /** Escaped text holds none of the characters that end a quoted XML attribute or a tag. */
  lemma {:induction false} EscapeClean(s: string)
    ensures forall i :: 0 <= i < |Escape(s)| ==> Escape(s)[i] !in {'"', '\'', '<', '>'}
  {
    if s != [] {
      EscapeClean(s[1..]);
      var head := EscapeChar(s[0]);
      assert Escape(s) == head + Escape(s[1..]);
      forall i | 0 <= i < |Escape(s)|
        ensures Escape(s)[i] !in {'"', '\'', '<', '>'}
      {
        if i >= |head| {
          assert Escape(s)[i] == Escape(s[1..])[i - |head|];
        }
      }
    }
  }

  /** The writes print_escaped attempts: one per character. */
  function EscapedItems(s: string): (r: seq<Item>)
    ensures |r| == |s|
    ensures forall i :: 0 <= i < |s| ==> r[i] == Text(EscapeChar(s[i]))
  {
    seq(|s|, i requires 0 <= i < |s| => Text(EscapeChar(s[i])))
  }

  /** The characters a sequence of writes carries, in order. */
  function Texts(items: seq<Item>): string
  {
    if items == [] then []
    else (if items[0].Text? then items[0].text else []) + Texts(items[1..])
  }

  /** The writes of print_escaped together carry exactly Escape(s). */
  lemma {:induction false} EscapedItemsText(s: string)
    ensures Texts(EscapedItems(s)) == Escape(s)
  {
    if s != [] {
      assert EscapedItems(s)[1..] == EscapedItems(s[1..]);
      EscapedItemsText(s[1..]);
    }
  }

  /** The writes indent attempts: `depth` tabs. */
  function Tabs(depth: nat): (r: seq<Item>)
    ensures |r| == depth
    ensures forall i :: 0 <= i < depth ==> r[i] == Text("\t")
  {
    seq(depth, i => Text("\t"))
  }

  /** indent writes exactly `depth` tab characters. */
  lemma {:induction false} TabsText(depth: nat)
    ensures Texts(Tabs(depth)) == seq(depth, i => '\t')
  {
    if depth > 0 {
      assert Tabs(depth)[1..] == Tabs(depth - 1);
      TabsText(depth - 1);
      assert seq(depth, i => '\t') == "\t" + seq(depth - 1, i => '\t');
    }
  }

  /**
   * print_escaped: `s` is the text of a C string (the characters before its
   * terminator).  It returns -1 at the first write that fails and 0 when
   * every write went through.
   */
  method PrintEscaped(o: Stream, s: string) returns (r: int)
    requires '\0' !in s
    modifies o
    ensures o.out == After(old(o.out), EscapedItems(s), o.capacity)
    ensures r == 0 || r == -1
    ensures r == 0 <==> |s| <= Room(old(o.out), o.capacity)
  {
    ghost var out0 := o.out;
    ghost var items := EscapedItems(s);
    var i := 0;
    while i < |s|
      invariant 0 <= i <= |s|
      invariant o.out == After(out0, items[..i], o.capacity)
      invariant i <= Room(out0, o.capacity)
    {
      var ok := o.Put(Text(EscapeChar(s[i])));
      AfterNext(out0, items, i, o.capacity);
      if !ok {
        AfterStop(out0, items, i + 1, o.capacity);
        return -1;
      }
      i := i + 1;
    }
    assert items[..i] == items;
    r := 0;
  }

  /** indent: writes `depth` tabs; -1 at the first write that fails. */
  method Indent(o: Stream, depth: nat) returns (r: int)
    modifies o
    ensures o.out == After(old(o.out), Tabs(depth), o.capacity)
    ensures r == 0 || r == -1
    ensures r == 0 <==> depth <= Room(old(o.out), o.capacity)
  {
    ghost var out0 := o.out;
    ghost var items := Tabs(depth);
    var left := depth;
    ghost var done: nat := 0;
    while left > 0
      invariant done + left == depth
      invariant o.out == After(out0, items[..done], o.capacity)
      invariant done <= Room(out0, o.capacity)
    {
      var ok := o.Put(Text("\t"));
      AfterNext(out0, items, done, o.capacity);
      left := left - 1;
      done := done + 1;
      if !ok {
        AfterStop(out0, items, done, o.capacity);
        return -1;
      }
    }
    assert items[..done] == items;
    r := 0;
  }
}
