/**
  The `split` and `join` templates of src/StringUtils.h.

  A delimiter argument `d` is a string of delimiter characters (the
  `find_first_of` / `find_first_not_of` reading of the template parameter);
  a single `char` delimiter is the one-character string `[c]`.
  `std::string::npos` is modelled as `None`.
*/
module StringUtils {
  import opened Wrappers

  type String = seq<char>

  // ---------------------------------------------------------------------
  // The std::string searches the templates rely on
  // ---------------------------------------------------------------------

  /** `s.find_first_of(d, from)`: the first index at or after `from` holding a delimiter. */
  function FindFirstOf(s: String, d: String, from: nat): (r: Option<nat>)
    decreases |s| - from
    ensures r.Some? ==> from <= r.value < |s| && s[r.value] in d
    ensures r.Some? ==> forall i :: from <= i < r.value ==> s[i] !in d
    ensures r.None? ==> forall i :: from <= i < |s| ==> s[i] !in d
  {
    if from >= |s| then None
    else if s[from] in d then Some(from)
    else FindFirstOf(s, d, from + 1)
  }

  /** `s.find_first_not_of(d, from)`: the first index at or after `from` holding a non-delimiter. */
  function FindFirstNotOf(s: String, d: String, from: nat): (r: Option<nat>)
    decreases |s| - from
    ensures r.Some? ==> from <= r.value < |s| && s[r.value] !in d
    ensures r.Some? ==> forall i :: from <= i < r.value ==> s[i] in d
    ensures r.None? ==> forall i :: from <= i < |s| ==> s[i] in d
  {
    if from >= |s| then None
    else if s[from] !in d then Some(from)
    else FindFirstNotOf(s, d, from + 1)
  }

  /** `s.find_last_not_of(d)` restricted to the indices below `end`. */
  function FindLastNotOf(s: String, d: String, end: nat): (r: Option<nat>)
    requires end <= |s|
    ensures r.Some? ==> r.value < end && s[r.value] !in d
    ensures r.Some? ==> forall i :: r.value < i < end ==> s[i] in d
    ensures r.None? ==> forall i :: 0 <= i < end ==> s[i] in d
  {
    if end == 0 then None
    else if s[end - 1] !in d then Some(end - 1)
    else FindLastNotOf(s, d, end - 1)
  }

  // ---------------------------------------------------------------------
  // Specification of split
  // ---------------------------------------------------------------------

  /**
    Cutting `s` at every delimiter character: `k` delimiters give `k + 1`
    tokens, and adjacent delimiters give an empty token between them.
  */
  function Tokens(s: String, d: String): (r: seq<String>)
    ensures |r| >= 1
  {
    if s == [] then [[]]
    else
      var rest := Tokens(s[1..], d);
      if s[0] in d then [[]] + rest else [[s[0]] + rest[0]] + rest[1..]
  }

  /** `s` without its leading and trailing runs of delimiter characters. */
  function Stripped(s: String, d: String): (r: String)
    ensures r == [] <==> forall i :: 0 <= i < |s| ==> s[i] in d
    ensures r != [] ==> r[0] !in d && r[|r| - 1] !in d
  {
    var first := FindFirstNotOf(s, d, 0);
    var last := FindLastNotOf(s, d, |s|);
    if first.None? || last.None? then []
    else s[first.value .. last.value + 1]
  }

  /** What `split(s, d)` returns: the tokens of the stripped string, none if it is empty. */
  function SplitTokens(s: String, d: String): (r: seq<String>)
    ensures r == [] <==> forall i :: 0 <= i < |s| ==> s[i] in d
  {
    var core := Stripped(s, d);
    if core == [] then [] else Tokens(core, d)
  }

  /** The number of delimiter characters in `s`. */
  function CountDelimiters(s: String, d: String): nat
  {
    if s == [] then 0 else (if s[0] in d then 1 else 0) + CountDelimiters(s[1..], d)
  }

  // ---------------------------------------------------------------------
  // split
  // ---------------------------------------------------------------------

  /** `StringUtils::split(str, d)`. */
  method Split(s: String, d: String) returns (result: seq<String>)
    ensures result == SplitTokens(s, d)
  {
    if |s| == 0 {
      return [];
    }
    var first := FindFirstNotOf(s, d, 0);
    if first.None? {
      assert SplitTokens(s, d) == [];
      return [];
    }
    var last := FindLastNotOf(s, d, |s|);
    assert last.Some?;
    assert first.value <= last.value;
    assert s[first.value .. last.value + 1] == Stripped(s, d);
    result := SplitBetween(s, d, first.value, last.value);
  }

  /** The loop of Split, from the first to the last non-delimiter position. */
  method SplitBetween(s: String, d: String, first: nat, last: nat) returns (result: seq<String>)
    requires first <= last < |s| && s[last] !in d
    ensures result == Tokens(s[first .. last + 1], d)
  {
    result := [];
    var lastPos := first;
    var pos := FindFirstOf(s, d, lastPos);
    while pos.Some? && pos.value < last
      invariant first <= lastPos <= last
      invariant pos == FindFirstOf(s, d, lastPos)
      invariant result + Tokens(s[lastPos .. last + 1], d) == Tokens(s[first .. last + 1], d)
      decreases last - lastPos
    {
      SplitStep(s, d, lastPos, pos.value, last);
      result := result + [s[lastPos .. pos.value]];
      lastPos := pos.value + 1;
      pos := FindFirstOf(s, d, lastPos);
    }
    SplitLastToken(s, d, lastPos, last);
    if lastPos <= last {
      result := result + [s[lastPos .. last + 1]];
    }
  }

  /** One iteration of Split: the token up to the delimiter found at `pos`. */
  lemma SplitStep(s: String, d: String, lastPos: nat, pos: nat, last: nat)
    requires lastPos <= pos < last < |s|
    requires FindFirstOf(s, d, lastPos) == Some(pos)
    ensures Tokens(s[lastPos .. last + 1], d) == [s[lastPos .. pos]] + Tokens(s[pos + 1 .. last + 1], d)
  {
    var t := s[lastPos .. last + 1];
    TokensAtDelimiter(t, d, pos - lastPos);
    assert t[..pos - lastPos] == s[lastPos .. pos];
    assert t[pos - lastPos + 1..] == s[pos + 1 .. last + 1];
  }

  /** After the loop of Split: no delimiter is left before `last`, which is not one. */
  lemma SplitLastToken(s: String, d: String, lastPos: nat, last: nat)
    requires lastPos <= last < |s| && s[last] !in d
    requires var pos := FindFirstOf(s, d, lastPos); !(pos.Some? && pos.value < last)
    ensures Tokens(s[lastPos .. last + 1], d) == [s[lastPos .. last + 1]]
  {
    var t := s[lastPos .. last + 1];
    forall i | 0 <= i < |t| ensures t[i] !in d {
      assert t[i] == s[lastPos + i];
    }
    TokensWithoutDelimiter(t, d);
  }

  // ---------------------------------------------------------------------
  // join
  // ---------------------------------------------------------------------

  /** What `join(strs, d)` returns: the elements with `d` between consecutive ones. */
  function Joined(strs: seq<String>, d: String): String
  {
    if |strs| == 0 then []
    else if |strs| == 1 then strs[0]
    else strs[0] + d + Joined(strs[1..], d)
  }

  /** `StringUtils::join(strs, d)`, streaming the elements one after the other. */
  method Join(strs: seq<String>, d: String) returns (r: String)
    ensures r == Joined(strs, d)
  {
    if |strs| == 0 {
      return [];
    }
    if |strs| == 1 {
      return strs[0];
    }
    r := strs[0];
    for i := 1 to |strs|
      invariant r == Joined(strs[..i], d)
    {
      JoinedSnoc(strs[..i], strs[i], d);
      assert strs[..i] + [strs[i]] == strs[..i + 1];
      r := r + d + strs[i];
    }
    assert strs[..|strs|] == strs;
  }

  /** The sum of the element lengths. */
  function TotalLength(strs: seq<String>): nat
  {
    if strs == [] then 0 else |strs[0]| + TotalLength(strs[1..])
  }

  // ---------------------------------------------------------------------
  // Lemmas about Tokens (used by Split)
  // ---------------------------------------------------------------------

  /** A string with no delimiter is a single token. */
  lemma {:induction false} TokensWithoutDelimiter(s: String, d: String)
    requires forall i :: 0 <= i < |s| ==> s[i] !in d
    ensures Tokens(s, d) == [s]
  {
    if s != [] {
      TokensWithoutDelimiter(s[1..], d);
      assert [s[0]] + s[1..] == s;
    }
  }

  /** Cutting at the first delimiter: the token before it, then the tokens after it. */
  lemma {:induction false} TokensAtDelimiter(s: String, d: String, k: nat)
    requires k < |s| && s[k] in d
    requires forall i :: 0 <= i < k ==> s[i] !in d
    ensures Tokens(s, d) == [s[..k]] + Tokens(s[k + 1..], d)
  {
    if k > 0 {
      TokensAtDelimiter(s[1..], d, k - 1);
      assert s[1..][k - 1 + 1..] == s[k + 1..];
      assert [s[0]] + s[1..][..k - 1] == s[..k];
    }
  }

  // ---------------------------------------------------------------------
  // Properties of split and join
  // ---------------------------------------------------------------------

  /** No token contains a delimiter character. */
  lemma {:induction false} TokensHaveNoDelimiter(s: String, d: String)
    ensures forall i, j :: 0 <= i < |Tokens(s, d)| && 0 <= j < |Tokens(s, d)[i]| ==> Tokens(s, d)[i][j] !in d
  {
    if s != [] {
      TokensHaveNoDelimiter(s[1..], d);
    }
  }

  /** There is one token more than there are delimiters. */
  lemma {:induction false} TokensCount(s: String, d: String)
    ensures |Tokens(s, d)| == CountDelimiters(s, d) + 1
  {
    if s != [] {
      TokensCount(s[1..], d);
    }
  }

  /** The last token is empty exactly when the string is empty or ends with a delimiter. */
  lemma {:induction false} TokensLast(s: String, d: String)
    ensures var r := Tokens(s, d); r[|r| - 1] == [] <==> s == [] || s[|s| - 1] in d
  {
    if s != [] {
      TokensLast(s[1..], d);
      var rest := Tokens(s[1..], d);
      if s[0] !in d && |rest| == 1 {
        assert Tokens(s, d) == [[s[0]] + rest[0]];
      }
    }
  }

  /** Two adjacent delimiters produce an empty token. */
  lemma {:induction false} AdjacentDelimitersGiveEmptyToken(s: String, d: String, k: nat)
    requires k + 1 < |s| && s[k] in d && s[k + 1] in d
    ensures [] in Tokens(s, d)[1..]
  {
    if k == 0 {
      assert Tokens(s, d) == [[]] + Tokens(s[1..], d);
      assert Tokens(s[1..], d) == [[]] + Tokens(s[2..], d);
      assert Tokens(s, d)[1..][0] == [];
    } else {
      AdjacentDelimitersGiveEmptyToken(s[1..], d, k - 1);
      var rest := Tokens(s[1..], d);
      var i :| 0 <= i < |rest[1..]| && rest[1..][i] == [];
      if s[0] in d {
        assert Tokens(s, d)[1..][i + 1] == [];
      } else {
        assert Tokens(s, d)[1..][i] == [];
      }
    }
  }

  /** The tokens of `split`: no delimiter inside, the first and last ones non-empty. */
  lemma SplitTokensShape(s: String, d: String)
    ensures var r := SplitTokens(s, d);
      && (forall i, j :: 0 <= i < |r| && 0 <= j < |r[i]| ==> r[i][j] !in d)
      && (r != [] ==> r[0] != [] && r[|r| - 1] != [])
  {
    var core := Stripped(s, d);
    if core != [] {
      TokensHaveNoDelimiter(core, d);
      TokensLast(core, d);
    }
  }

  /** `split` yields one token more than the delimiters between the first and last non-delimiters. */
  lemma SplitTokensCount(s: String, d: String)
    ensures SplitTokens(s, d) != [] ==> |SplitTokens(s, d)| == CountDelimiters(Stripped(s, d), d) + 1
  {
    TokensCount(Stripped(s, d), d);
  }

  /** Appending one element to a non-empty list appends the separator and the element. */
  lemma {:induction false} JoinedSnoc(strs: seq<String>, x: String, d: String)
    requires strs != []
    ensures Joined(strs + [x], d) == Joined(strs, d) + d + x
  {
    if |strs| == 1 {
      assert strs + [x] == [strs[0], x];
    } else {
      assert (strs + [x])[1..] == strs[1..] + [x];
      JoinedSnoc(strs[1..], x, d);
    }
  }

  /** The length of a join: all the elements plus one separator between each pair. */
  lemma {:induction false} JoinedLength(strs: seq<String>, d: String)
    requires strs != []
    ensures |Joined(strs, d)| == TotalLength(strs) + (|strs| - 1) * |d|
  {
    if |strs| > 1 {
      JoinedLength(strs[1..], d);
    }
  }

  /** Joining the tokens with the one delimiter character gives back the string. */
  lemma {:induction false} JoinTokens(s: String, c: char)
    ensures Joined(Tokens(s, [c]), [c]) == s
  {
    if s != [] {
      JoinTokens(s[1..], c);
      var rest := Tokens(s[1..], [c]);
      if s[0] == c {
        assert Tokens(s, [c]) == [[]] + rest;
      } else {
        var r := Tokens(s, [c]);
        assert r == [[s[0]] + rest[0]] + rest[1..];
        if |rest| == 1 {
          assert Joined(r, [c]) == [s[0]] + rest[0];
        } else {
          assert r[1..] == rest[1..];
          assert Joined(r, [c]) == [s[0]] + rest[0] + [c] + Joined(rest[1..], [c]);
        }
      }
    }
  }

  /** Round trip: `join(split(s, c), c)` is `s` without its leading and trailing runs of `c`. */
  lemma SplitJoinRoundTrip(s: String, c: char)
    ensures Joined(SplitTokens(s, [c]), [c]) == Stripped(s, [c])
  {
    JoinTokens(Stripped(s, [c]), c);
  }
}
