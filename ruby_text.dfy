/**
 * The parts of Ruby's String, Array and File behaviour that lib/cron_helper/job.rb relies on,
 * stated over `string` (a sequence of characters).
 */
module RubyText {

  /** The NUL character, which a StringIO writes into any gap before its write position. */
  const Nul: char := '\0'

  /** `c * n` in Ruby: the character `c` repeated `n` times. */
  function Repeated(c: char, n: nat): (r: string)
    ensures |r| == n
    ensures forall i :: 0 <= i < n ==> r[i] == c
  {
    if n == 0 then [] else Repeated(c, n - 1) + [c]
  }

  function Nuls(n: nat): string
  {
    Repeated(Nul, n)
  }

  predicate NulFree(s: string)
  {
    forall i :: 0 <= i < |s| ==> s[i] != Nul
  }

  predicate EndsWithNewline(s: string)
  {
    |s| > 0 && s[|s| - 1] == '\n'
  }

  predicate EndsWithLineTerminator(s: string)
  {
    |s| > 0 && (s[|s| - 1] == '\n' || s[|s| - 1] == '\r')
  }

  /** `s` ends with the two-character terminator "\r\n". */
  predicate EndsWithCrLf(s: string)
  {
    |s| >= 2 && s[|s| - 2] == '\r' && s[|s| - 1] == '\n'
  }

  lemma AppendIsAssociative<T>(a: seq<T>, b: seq<T>, c: seq<T>)
    ensures (a + b) + c == a + (b + c)
  {
  }

  /** The last `k` elements of a concatenation are those of its second part, when it is long enough. */
  lemma EndOfConcat<T>(a: seq<T>, b: seq<T>, k: nat)
    requires k <= |b|
    ensures (a + b)[|a + b| - k..] == b[|b| - k..]
  {
    assert (a + b)[|a| + (|b| - k)..] == b[|b| - k..];
  }

  lemma AppendKeepsNewlineEnd(a: string, b: string)
    requires EndsWithNewline(b)
    ensures EndsWithNewline(a + b)
  {
    assert (a + b)[|a + b| - 1] == b[|b| - 1];
  }

  /** `String#chomp` with no argument: removes one trailing "\r\n", "\n" or "\r", if there is one. */
  function Chomp(s: string): (r: string)
    ensures |r| <= |s|
  {
    if EndsWithCrLf(s) then s[..|s| - 2]
    else if EndsWithLineTerminator(s) then s[..|s| - 1]
    else s
  }

  /** `chomp` changes a string exactly when it ends with a line terminator. */
  lemma ChompChangesOnlyTerminated(s: string)
    ensures Chomp(s) == s <==> !EndsWithLineTerminator(s)
  {
  }

  /**
   * `chomp` only looks at the end: text in front of a non-empty string is kept as it is, unless
   * a '\r' at its end would pair with a lone "\n".
   */
  lemma ChompAfterPrefix(a: string, s: string)
    requires s != ""
    requires |a| > 0 ==> a[|a| - 1] != '\r'
    ensures Chomp(a + s) == a + Chomp(s)
  {
    var t := a + s;
    assert t[|t| - 1] == s[|s| - 1];
    if |s| >= 2 {
      assert t[|t| - 2] == s[|s| - 2];
    }
    if EndsWithCrLf(t) && |s| >= 2 {
      assert t[..|t| - 2] == a + s[..|s| - 2];
    } else if EndsWithLineTerminator(t) {
      assert t[..|t| - 1] == a + s[..|s| - 1];
    }
  }

  /** What `chomp` removes is exactly one line terminator, "\r\n" taken whole, from the end. */
  lemma ChompRemovesOneTerminator(s: string)
    ensures var r := Chomp(s);
            && r == s[..|r|]
            && s[|r|..] in {"", "\n", "\r", "\r\n"}
            && (EndsWithCrLf(s) ==> |r| == |s| - 2)
  {
    var r := Chomp(s);
    if EndsWithCrLf(s) {
      assert s[|r|..] == "\r\n";
    } else if EndsWithLineTerminator(s) {
      assert s[|r|..] == [s[|s| - 1]];
    } else {
      assert s[|r|..] == "";
    }
  }

  /** What `puts s` writes for a single string argument. */
  function PutsText(s: string): (r: string)
    ensures |s| <= |r| <= |s| + 1
    ensures EndsWithNewline(r)
  {
    if EndsWithNewline(s) then s else s + "\n"
  }

  /** `puts` writes a string unchanged exactly when it already ends with "\n". */
  lemma PutsAddsOnlyMissingNewline(s: string)
    ensures PutsText(s) == s <==> EndsWithNewline(s)
  {
  }

  /** `puts` only ever adds a newline after the text. */
  lemma PutsKeepsText(s: string)
    ensures PutsText(s)[..|s|] == s
  {
  }

  /** `Array#join(separator)` over an array of strings. */
  function Join(parts: seq<string>, separator: string): string
    decreases |parts|
  {
    if |parts| == 0 then ""
    else if |parts| == 1 then parts[0]
    else parts[0] + separator + Join(parts[1..], separator)
  }

  /** Joining one more part adds the separator and that part at the end. */
  lemma {:induction false} JoinAppend(parts: seq<string>, separator: string, last: string)
    requires |parts| > 0
    ensures Join(parts + [last], separator) == Join(parts, separator) + separator + last
    decreases |parts|
  {
    if |parts| == 1 {
      assert (parts + [last])[1..] == [last];
    } else {
      assert (parts + [last])[1..] == parts[1..] + [last];
      JoinAppend(parts[1..], separator, last);
      AppendIsAssociative(parts[0] + separator, Join(parts[1..], separator), separator + last);
    }
  }

  predicate EndsWithSeparator(s: string)
  {
    |s| > 0 && s[|s| - 1] == '/'
  }

  /** Where the run of '/' that ends `s` begins; |s| when `s` does not end with '/'. */
  function TrailingSeparatorStart(s: string): (k: nat)
    ensures k <= |s|
    decreases |s|
  {
    if EndsWithSeparator(s) then TrailingSeparatorStart(s[..|s| - 1]) else |s|
  }

  /** Everything from TrailingSeparatorStart(s) on is '/', and the character before it is not. */
  lemma {:induction false} TrailingSeparatorsSpan(s: string)
    ensures var k := TrailingSeparatorStart(s);
            && (forall i :: k <= i < |s| ==> s[i] == '/')
            && (k == 0 || s[k - 1] != '/')
    decreases |s|
  {
    if EndsWithSeparator(s) {
      TrailingSeparatorsSpan(s[..|s| - 1]);
    }
  }

  /**
   * `File.join(dir, part)` with '/' as the separator: a part that starts with '/' replaces the
   * separators ending `dir`; otherwise one '/' is put between them unless `dir` already ends with one.
   */
  function FileJoin(dir: string, part: string): string
  {
    var k := TrailingSeparatorStart(dir);
    if |part| > 0 && part[0] == '/' then dir[..k] + part
    else if k == |dir| then dir + "/" + part
    else dir + part
  }

  /** A relative part is put after exactly one '/', which is added only when `dir` does not already end with one. */
  lemma FileJoinRelative(dir: string, part: string)
    requires part == "" || part[0] != '/'
    ensures FileJoin(dir, part) == dir + (if EndsWithSeparator(dir) then "" else "/") + part
  {
    if !EndsWithSeparator(dir) {
      assert TrailingSeparatorStart(dir) == |dir|;
    }
  }

  /** A part that starts with '/' replaces the whole run of '/' that ends `dir`. */
  lemma FileJoinAbsolute(dir: string, part: string)
    requires |part| > 0 && part[0] == '/'
    ensures var r := FileJoin(dir, part);
            && |part| <= |r|
            && r[|r| - |part|..] == part
            && r[..|r| - |part|] <= dir
            && !EndsWithSeparator(r[..|r| - |part|])
            && (forall i :: |r| - |part| <= i < |dir| ==> dir[i] == '/')
  {
    var k := TrailingSeparatorStart(dir);
    TrailingSeparatorsSpan(dir);
    var r := dir[..k] + part;
    assert r[..|r| - |part|] == dir[..k];
    assert r[|r| - |part|..] == part;
  }

}
