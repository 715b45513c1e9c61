/**
 * Ruby's StringIO, as far as job.rb uses it: a string and a write position. Writing at a
 * position past the end of the string first fills the gap with NUL characters, and neither
 * `truncate` nor an in-place change of the underlying string moves the position.
 */
module StringBuffer {
  import opened RubyText

  /** The state of a StringIO: its string and its write position. */
  datatype Cursor = Cursor(text: string, pos: nat)

  function Max(a: nat, b: nat): nat
  {
    if a < b then b else a
  }

  /** `StringIO#write(s)`: `s` overwrites the string from the write position on, which then moves past it. */
  function Written(b: Cursor, s: string): (r: Cursor)
    ensures s == "" ==> r == b
    ensures s != "" ==> r.pos == b.pos + |s| && |r.text| == Max(|b.text|, r.pos)
  {
    if s == "" then b
    else
      var front := if b.pos <= |b.text| then b.text[..b.pos] else b.text + Nuls(b.pos - |b.text|);
      var back := if b.pos + |s| < |b.text| then b.text[b.pos + |s|..] else "";
      Cursor(front + s + back, b.pos + |s|)
  }

  /** `StringIO#truncate(len)`: the string is cut or NUL-extended to `len`; the position stays. */
  function Truncated(b: Cursor, len: nat): (r: Cursor)
    ensures |r.text| == len && r.pos == b.pos
  {
    Cursor(if len <= |b.text| then b.text[..len] else b.text + Nuls(len - |b.text|), b.pos)
  }

  /** Truncation keeps the characters below `len` and pads with NUL past the old end. */
  lemma TruncateKeepsPrefix(b: Cursor, len: nat)
    ensures forall i :: 0 <= i < len ==> Truncated(b, len).text[i] == (if i < |b.text| then b.text[i] else Nul)
  {
  }

  /** `string.chomp!` on the StringIO's own string: the text loses its line terminator, the position stays. */
  function Chomped(b: Cursor): Cursor
  {
    Cursor(Chomp(b.text), b.pos)
  }

  /**
   * `chomp!` on the buffer's string removes at most one line terminator from the end of the
   * text and leaves the write position where it was, possibly past the new end.
   */
  lemma ChompedKeepsPrefix(b: Cursor)
    ensures var r := Chomped(b);
            && r.pos == b.pos
            && r.text <= b.text
            && b.text[|r.text|..] in {"", "\n", "\r", "\r\n"}
  {
    ChompRemovesOneTerminator(b.text);
  }

  /**
   * What a write does to each character: `s` lands at the old position, the characters before
   * it are kept (NUL where the string was shorter than the position), and those after it are kept.
   */
  lemma WritePlacesText(b: Cursor, s: string)
    requires s != ""
    ensures var r := Written(b, s);
            && r.text[b.pos..r.pos] == s
            && (forall i :: 0 <= i < b.pos ==> r.text[i] == (if i < |b.text| then b.text[i] else Nul))
            && (forall i :: r.pos <= i < |b.text| ==> r.text[i] == b.text[i])
  {
  }

  /** `s` sits in the string just before the write position, starting at `from`. */
  predicate JustWritten(b: Cursor, from: nat, s: string)
  {
    b.pos == from + |s| <= |b.text| && b.text[from..b.pos] == s
  }

  /** After a write, what was written sits just before the new position. */
  lemma WriteEndsAtPosition(b: Cursor, s: string)
    requires s != ""
    ensures JustWritten(Written(b, s), b.pos, s)
  {
    WritePlacesText(b, s);
  }

  /** Writing at or past the end of the string appends, after a NUL gap up to the position. */
  lemma WriteAtEnd(b: Cursor, s: string)
    requires |b.text| <= b.pos && s != ""
    ensures Written(b, s) == Cursor(b.text + Nuls(b.pos - |b.text|) + s, b.pos + |s|)
  {
    if b.pos == |b.text| {
      assert b.text[..b.pos] == b.text + Nuls(0);
    }
  }

  /**
   * A write to a buffer whose position is at or past the end of its string, the only kind job.rb
   * makes once the buffer has been emptied: the gap is NUL-padded and `s` goes after it.
   */
  function Appended(b: Cursor, s: string): (r: Cursor)
    requires |b.text| <= b.pos
    ensures |r.text| <= r.pos && b.pos <= r.pos
  {
    if s == "" then b else Cursor(b.text + Nuls(b.pos - |b.text|) + s, b.pos + |s|)
  }

  /** What is appended is what the string ends with. */
  lemma AppendedEndsWith(b: Cursor, s: string)
    requires |b.text| <= b.pos
    ensures var t := Appended(b, s).text;
            |s| <= |t| && t[|t| - |s|..] == s
  {
    if s != "" {
      var t := b.text + Nuls(b.pos - |b.text|) + s;
      assert t[|t| - |s|..] == s;
    }
  }

  /** An append keeps the whole string it found. */
  lemma AppendedKeepsText(b: Cursor, s: string)
    requires |b.text| <= b.pos
    ensures b.text <= Appended(b, s).text
  {
    if s != "" {
      assert (b.text + Nuls(b.pos - |b.text|) + s)[..|b.text|] == b.text;
    }
  }

  /** With the position at the end of the string there is no gap: the text is simply appended. */
  lemma AppendedWithoutGap(b: Cursor, s: string)
    requires |b.text| == b.pos
    ensures Appended(b, s) == Cursor(b.text + s, b.pos + |s|)
  {
    if s != "" {
      assert b.text + Nuls(0) + s == b.text + s;
    }
  }

  /** At or past the end of the string, `StringIO#write` is an append after the gap. */
  lemma WriteAppends(b: Cursor, s: string)
    requires |b.text| <= b.pos
    ensures Written(b, s) == Appended(b, s)
  {
    if s != "" {
      WriteAtEnd(b, s);
    }
  }

  /** A write to a fresh StringIO leaves exactly the text written. */
  lemma WriteToEmpty(s: string)
    ensures Written(Cursor("", 0), s) == Cursor(s, |s|)
  {
    if s != "" {
      WriteAtEnd(Cursor("", 0), s);
      assert "" + Nuls(0) + s == s;
    }
  }

  /**
   * Once the string is emptied, two writes in a row leave what one write of both texts leaves,
   * so a task's output can be taken as the concatenation of everything it writes.
   */
  lemma {:induction false} WritesCompose(start: nat, a: string, c: string)
    ensures Written(Written(Cursor("", start), a), c) == Written(Cursor("", start), a + c)
  {
    if a == "" {
      assert a + c == c;
    } else if c == "" {
      assert a + c == a;
    } else {
      var b := Written(Cursor("", start), a);
      WriteAtEnd(Cursor("", start), a);
      WriteAtEnd(b, c);
      WriteAtEnd(Cursor("", start), a + c);
      assert Nuls(b.pos - |b.text|) == [];
      assert "" + Nuls(start) + a + [] + c == "" + Nuls(start) + (a + c);
    }
  }

  /** A StringIO object, shared by reference between the job's `@output`, `$stdout` and `$stderr`. */
  class StringIO {
    var text: string
    var pos: nat

    function State(): Cursor
      reads this
    {
      Cursor(text, pos)
    }

    /** `StringIO.new`: an empty string, position 0. */
    constructor ()
      ensures State() == Cursor("", 0)
    {
      text, pos := "", 0;
    }

    method Write(s: string)
      modifies this
      ensures State() == Written(old(State()), s)
    {
      var r := Written(State(), s);
      text, pos := r.text, r.pos;
    }

    method Truncate(len: nat)
      modifies this
      ensures State() == Truncated(old(State()), len)
    {
      text := Truncated(State(), len).text;
    }

    method ChompString()
      modifies this
      ensures State() == Chomped(old(State()))
    {
      text := Chomp(text);
    }
  }

}
