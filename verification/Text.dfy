/** The few string operations the modelled parsers use. */
module Text {

  datatype Option<+T> = None | Some(value: T)

  /** `text.split(c)`: the pieces between separators; never empty. */
  function Split(text: string, c: char): (pieces: seq<string>)
    ensures |pieces| >= 1
    ensures forall p | p in pieces :: c !in p
    ensures Join(pieces, c) == text
  {
    if text == [] then
      [""]
    else
      var rest := Split(text[1..], c);
      if text[0] == c then
        assert Join([""] + rest, c) == [c] + Join(rest, c);
        [""] + rest
      else
        assert Join([[text[0]] + rest[0]] + rest[1..], c) == [text[0]] + Join(rest, c);
        [[text[0]] + rest[0]] + rest[1..]
  }

  function Join(pieces: seq<string>, c: char): string
    requires |pieces| >= 1
  {
    if |pieces| == 1 then pieces[0] else pieces[0] + [c] + Join(pieces[1..], c)
  }

  /** A text without the separator is one piece ... */
  lemma {:induction false} SplitWhole(head: string, c: char)
    requires c !in head
    ensures Split(head, c) == [head]
  {
    if head != [] {
      assert head[0] in head && forall x | x in head[1..] :: x in head;
      SplitWhole(head[1..], c);
      assert head == [head[0]] + head[1..];
    }
  }

  /** ... and a separator after it starts the next. */
  lemma {:induction false} SplitHead(head: string, tail: string, c: char)
    requires c !in head
    ensures Split(head + [c] + tail, c) == [head] + Split(tail, c)
  {
    var t := head + [c] + tail;
    if head == [] {
      assert t[1..] == tail;
    } else {
      assert head[0] in head && forall x | x in head[1..] :: x in head;
      SplitHead(head[1..], tail, c);
      assert t[0] == head[0] && t[1..] == head[1..] + [c] + tail;
      assert head == [head[0]] + head[1..];
    }
  }

  /** Splitting a joined text gives the pieces back. */
  lemma {:induction false} SplitJoin(pieces: seq<string>, c: char)
    requires |pieces| >= 1 && forall p | p in pieces :: c !in p
    ensures Split(Join(pieces, c), c) == pieces
  {
    assert pieces[0] in pieces && pieces == [pieces[0]] + pieces[1..];
    if |pieces| == 1 {
      SplitWhole(pieces[0], c);
    } else {
      SplitHead(pieces[0], Join(pieces[1..], c), c);
      SplitJoin(pieces[1..], c);
    }
  }
}
