/** Splitting a line received from the pad into button-state tokens.

    The driver splits every line on the null and carriage-return characters and
    drops the empty fragments (String.Split with RemoveEmptyEntries).  Split is
    that rule; Join is the frame the pad sends (each token followed by a
    carriage return), and SplitJoin is the round trip between them.
 */
module Tokens {

  /** The two characters the driver splits on. */
  predicate IsSeparator(c: char) {
    c == '\0' || c == '\r'
  }

  predicate NoSeparator(s: string) {
    forall i :: 0 <= i < |s| ==> !IsSeparator(s[i])
  }

  /** What Split can return as one token: never empty, never a separator inside. */
  predicate WellFormed(token: string) {
    |token| > 0 && NoSeparator(token)
  }

  /** The fragment collected so far becomes a token unless it is empty. */
  function Flush(fragment: string): seq<string> {
    if fragment == [] then [] else [fragment]
  }

  /** Splits `s`, given that `fragment` has already been read since the last separator. */
  function SplitFrom(s: string, fragment: string): (tokens: seq<string>)
    requires NoSeparator(fragment)
    ensures forall k :: 0 <= k < |tokens| ==> WellFormed(tokens[k])
    decreases |s|
  {
    if s == [] then
      Flush(fragment)
    else if IsSeparator(s[0]) then
      Flush(fragment) + SplitFrom(s[1..], [])
    else
      SplitFrom(s[1..], fragment + [s[0]])
  }

  /** The tokens of a received line, in order. */
  function Split(line: string): (tokens: seq<string>)
    ensures forall k :: 0 <= k < |tokens| ==> WellFormed(tokens[k])
  {
    SplitFrom(line, [])
  }

  /** The line the pad sends for the given tokens: each one followed by a carriage return. */
  function Join(tokens: seq<string>): string {
    if tokens == [] then [] else tokens[0] + ['\r'] + Join(tokens[1..])
  }

  lemma {:induction false} SplitFromSeparated(a: string, sep: char, b: string, fragment: string)
    requires IsSeparator(sep) && NoSeparator(fragment)
    ensures SplitFrom(a + [sep] + b, fragment) == SplitFrom(a, fragment) + Split(b)
    decreases |a|
  {
    if a == [] {
      assert a + [sep] + b == [sep] + b;
      assert ([sep] + b)[1..] == b;
    } else {
      assert (a + [sep] + b)[0] == a[0];
      assert (a + [sep] + b)[1..] == a[1..] + [sep] + b;
      if IsSeparator(a[0]) {
        SplitFromSeparated(a[1..], sep, b, []);
      } else {
        SplitFromSeparated(a[1..], sep, b, fragment + [a[0]]);
      }
    }
  }

  /** A separator cuts a line into two parts that split independently. */
  lemma SplitSeparated(a: string, sep: char, b: string)
    requires IsSeparator(sep)
    ensures Split(a + [sep] + b) == Split(a) + Split(b)
  {
    SplitFromSeparated(a, sep, b, []);
  }

  lemma {:induction false} SplitFromWord(w: string, fragment: string)
    requires NoSeparator(w) && NoSeparator(fragment)
    ensures SplitFrom(w, fragment) == Flush(fragment + w)
    decreases |w|
  {
    if w == [] {
      assert fragment + w == fragment;
    } else {
      assert fragment + w == (fragment + [w[0]]) + w[1..];
      SplitFromWord(w[1..], fragment + [w[0]]);
    }
  }

  /** A line without separators is one token, or none when it is empty. */
  lemma SplitWord(w: string)
    requires NoSeparator(w)
    ensures Split(w) == Flush(w)
  {
    SplitFromWord(w, []);
    assert [] + w == w;
  }

  /** Splitting the line the pad sends gives back exactly the tokens it encodes. */
  lemma {:induction false} SplitJoin(tokens: seq<string>)
    requires forall k :: 0 <= k < |tokens| ==> WellFormed(tokens[k])
    ensures Split(Join(tokens)) == tokens
  {
    if tokens != [] {
      SplitJoin(tokens[1..]);
      SplitSeparated(tokens[0], '\r', Join(tokens[1..]));
      SplitWord(tokens[0]);
      assert tokens == [tokens[0]] + tokens[1..];
    }
  }
}
