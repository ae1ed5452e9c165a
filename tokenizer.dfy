/**
 * The tokenizer: `ofxBDF::getTokens` splits one line of the font file into
 * whitespace-separated tokens, the way `stream >> buffer` on a
 * `std::stringstream` does in the C locale.
 */
module Tokenizer {

  /** The characters `isspace` accepts in the C locale. */
  predicate IsSpace(c: char) {
    c == ' ' || c == '\t' || c == '\n' || c == '\r' || c == '\U{B}' || c == '\U{C}'
  }

  /** A token: non-empty and free of whitespace. */
  predicate IsWord(t: string) {
    |t| > 0 && forall k :: 0 <= k < |t| ==> !IsSpace(t[k])
  }

  /** Length of the run of non-whitespace characters that starts `s`. */
  function WordLength(s: string): (n: nat)
    ensures n <= |s|
    ensures forall k :: 0 <= k < n ==> !IsSpace(s[k])
    ensures n == |s| || IsSpace(s[n])
  {
    if s == [] || IsSpace(s[0]) then 0 else 1 + WordLength(s[1..])
  }

  /** The tokens of `s`, left to right: the specification of `GetTokens`. */
  function Tokens(s: string): seq<string>
    decreases |s|
  {
    if s == [] then []
    else if IsSpace(s[0]) then Tokens(s[1..])
    else
      var n := WordLength(s);
      [s[..n]] + Tokens(s[n..])
  }

  /** `s` with every whitespace character removed. */
  function Squeeze(s: string): (r: string)
    ensures |r| <= |s|
  {
    if s == [] then []
    else if IsSpace(s[0]) then Squeeze(s[1..])
    else [s[0]] + Squeeze(s[1..])
  }

  /** All tokens concatenated, in order. */
  function Concat(ts: seq<string>): string {
    if ts == [] then [] else ts[0] + Concat(ts[1..])
  }

  /**
   * `getTokens`: a loop that skips whitespace, then reads one token into a
   * buffer and appends it to the vector, until the line is exhausted.
   */
  method GetTokens(s: string) returns (tokens: seq<string>)
    ensures tokens == Tokens(s)
  {
    tokens := [];
    var i := 0;
    while i < |s|
      invariant 0 <= i <= |s|
      invariant tokens + Tokens(s[i..]) == Tokens(s)
    {
      if IsSpace(s[i]) {
        assert Tokens(s[i..]) == Tokens(s[i + 1..]) by {
          assert s[i..][1..] == s[i + 1..];
        }
        i := i + 1;
      } else {
        var j := ScanWord(s, i);
        assert s[i..] == s[i..j] + s[j..];
        assert Tokens(s[i..]) == [s[i..j]] + Tokens(s[j..]);
        tokens := tokens + [s[i..j]];
        i := j;
      }
    }
  }

  /** The inner loop of `stream >> buffer`: the end of the word that starts at `i`. */
  method ScanWord(s: string, i: nat) returns (j: nat)
    requires i <= |s|
    ensures j == i + WordLength(s[i..])
    ensures i <= j <= |s| && s[i..][..j - i] == s[i..j] && s[i..][j - i..] == s[j..]
  {
    j := i;
    while j < |s| && !IsSpace(s[j])
      invariant i <= j <= |s|
      invariant forall k :: i <= k < j ==> !IsSpace(s[k])
    {
      j := j + 1;
    }
    ghost var rest := s[i..];
    assert forall k :: 0 <= k < j - i ==> rest[k] == s[i + k];
    assert j - i == |rest| || rest[j - i] == s[j];
    WordLengthIsRun(rest, j - i);
    assert rest[..j - i] == s[i..j];
    assert rest[j - i..] == s[j..];
  }

  /** A run of non-whitespace ended by whitespace or the end is `WordLength`. */
  lemma {:induction false} WordLengthIsRun(s: string, n: nat)
    requires n <= |s|
    requires forall k :: 0 <= k < n ==> !IsSpace(s[k])
    requires n == |s| || IsSpace(s[n])
    ensures WordLength(s) == n
  {
    if n > 0 {
      WordLengthIsRun(s[1..], n - 1);
    }
  }

  /** Every token is non-empty and contains no whitespace. */
  lemma {:induction false} TokensAreWords(s: string)
    ensures forall k :: 0 <= k < |Tokens(s)| ==> IsWord(Tokens(s)[k])
    decreases |s|
  {
    if s == [] {
    } else if IsSpace(s[0]) {
      TokensAreWords(s[1..]);
    } else {
      var n := WordLength(s);
      TokensAreWords(s[n..]);
    }
  }

  /** Squeezing distributes over concatenation. */
  lemma {:induction false} SqueezeAppend(a: string, b: string)
    ensures Squeeze(a + b) == Squeeze(a) + Squeeze(b)
    decreases |a|
  {
    if a == [] {
      assert a + b == b;
    } else {
      assert (a + b)[1..] == a[1..] + b;
      SqueezeAppend(a[1..], b);
    }
  }

  /** A string without whitespace is its own squeeze. */
  lemma {:induction false} SqueezeWord(t: string)
    requires forall k :: 0 <= k < |t| ==> !IsSpace(t[k])
    ensures Squeeze(t) == t
    decreases |t|
  {
    if t != [] {
      SqueezeWord(t[1..]);
      assert t == [t[0]] + t[1..];
    }
  }

  /** The tokens, concatenated in order, give the line with whitespace removed. */
  lemma {:induction false} TokensConcat(s: string)
    ensures Concat(Tokens(s)) == Squeeze(s)
    decreases |s|
  {
    if s == [] {
    } else if IsSpace(s[0]) {
      TokensConcat(s[1..]);
    } else {
      var n := WordLength(s);
      TokensConcat(s[n..]);
      assert s == s[..n] + s[n..];
      SqueezeAppend(s[..n], s[n..]);
      SqueezeWord(s[..n]);
      assert ([s[..n]] + Tokens(s[n..]))[1..] == Tokens(s[n..]);
    }
  }

  /** A whitespace character separates: the tokens of both sides, in order. */
  lemma {:induction false} TokensSplit(a: string, c: char, b: string)
    requires IsSpace(c)
    ensures Tokens(a + [c] + b) == Tokens(a) + Tokens(b)
    decreases |a|
  {
    var s := a + [c] + b;
    if a == [] {
      assert s[1..] == b;
    } else if IsSpace(a[0]) {
      assert s[1..] == a[1..] + [c] + b;
      TokensSplit(a[1..], c, b);
    } else {
      var n := WordLength(a);
      WordLengthIsRun(s, n);
      assert s[..n] == a[..n];
      assert s[n..] == a[n..] + [c] + b;
      TokensSplit(a[n..], c, b);
      calc {
        Tokens(s);
        [s[..n]] + Tokens(s[n..]);
        [a[..n]] + (Tokens(a[n..]) + Tokens(b));
        ([a[..n]] + Tokens(a[n..])) + Tokens(b);
        Tokens(a) + Tokens(b);
      }
    }
  }

  /** A line that is a single word has exactly that token. */
  lemma {:induction false} TokensOfWord(t: string)
    requires IsWord(t)
    ensures Tokens(t) == [t]
  {
    WordLengthIsRun(t, |t|);
    assert t[..|t|] == t;
    assert t[|t|..] == [];
  }
}
