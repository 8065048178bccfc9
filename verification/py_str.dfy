/**
  A model of the two Python string methods the configuration manager relies on:
  `str.split(sep)` with a one-character separator and `str.strip(chars)`.
*/
module PyStr {

  /** `s.split(sep)`: the maximal separator-free pieces of `s`, in order. */
  function Split(s: string, sep: char): (r: seq<string>)
    ensures |r| >= 1
    ensures forall i :: 0 <= i < |r| ==> sep !in r[i]
    decreases |s|
  {
    if s == [] then [[]]
    else
      var rest := Split(s[1..], sep);
      if s[0] == sep then [[]] + rest
      else [[s[0]] + rest[0]] + rest[1..]
  }

  /** `sep.join(parts)`, the inverse of `Split`. */
  function Join(parts: seq<string>, sep: char): string
    requires |parts| >= 1
    decreases |parts|
  {
    if |parts| == 1 then parts[0] else parts[0] + [sep] + Join(parts[1..], sep)
  }

  /** Joining the pieces of a split gives the original string back. */
  lemma {:induction false} JoinOfSplit(s: string, sep: char)
    ensures Join(Split(s, sep), sep) == s
    decreases |s|
  {
    if s != [] {
      var rest := Split(s[1..], sep);
      JoinOfSplit(s[1..], sep);
      if s[0] == sep {
        assert ([[]] + rest)[1..] == rest;
      } else if |rest| > 1 {
        assert ([[s[0]] + rest[0]] + rest[1..])[1..] == rest[1..];
        assert Join(rest, sep) == rest[0] + [sep] + Join(rest[1..], sep);
        assert s == [s[0]] + s[1..];
      } else {
        assert s == [s[0]] + s[1..];
      }
    }
  }

  /** Prepending a separator-free word to a string extends its first piece. */
  lemma {:induction false} SplitPrepend(w: string, t: string, sep: char)
    requires sep !in w
    ensures Split(w + t, sep) == [w + Split(t, sep)[0]] + Split(t, sep)[1..]
    decreases |w|
  {
    if w != [] {
      var st := Split(t, sep);
      assert (w + t)[0] == w[0] && (w + t)[1..] == w[1..] + t;
      SplitPrepend(w[1..], t, sep);
      var rest := Split(w[1..] + t, sep);
      assert rest[0] == w[1..] + st[0] && rest[1..] == st[1..];
      assert Split(w + t, sep) == [[w[0]] + rest[0]] + rest[1..];
      assert [w[0]] + (w[1..] + st[0]) == w + st[0];
    } else {
      assert w + t == t;
      assert [] + Split(t, sep)[0] == Split(t, sep)[0];
      assert [Split(t, sep)[0]] + Split(t, sep)[1..] == Split(t, sep);
    }
  }

  /** Splitting a join of separator-free pieces gives the pieces back. */
  lemma {:induction false} SplitOfJoin(parts: seq<string>, sep: char)
    requires |parts| >= 1
    requires forall i :: 0 <= i < |parts| ==> sep !in parts[i]
    ensures Split(Join(parts, sep), sep) == parts
    decreases |parts|
  {
    if |parts| == 1 {
      SplitPrepend(parts[0], [], sep);
      assert parts[0] + [] == parts[0];
    } else {
      var tail := Join(parts[1..], sep);
      SplitOfJoin(parts[1..], sep);
      assert Join(parts, sep) == parts[0] + ([sep] + tail);
      assert ([sep] + tail)[0] == sep && ([sep] + tail)[1..] == tail;
      assert Split([sep] + tail, sep) == [[]] + parts[1..];
      SplitPrepend(parts[0], [sep] + tail, sep);
      assert parts[0] + [] == parts[0];
      assert parts == [parts[0]] + parts[1..];
    }
  }

  /** There is more than one piece exactly when the separator occurs. */
  lemma {:induction false} SplitHasSeveralPieces(s: string, sep: char)
    ensures |Split(s, sep)| >= 2 <==> sep in s
    decreases |s|
  {
    if s != [] {
      SplitHasSeveralPieces(s[1..], sep);
      assert s == [s[0]] + s[1..];
    }
  }

  /** The first piece is the longest separator-free prefix. */
  lemma {:induction false} SplitFirstPiece(s: string, sep: char)
    ensures Split(s, sep)[0] <= s
    ensures |Split(s, sep)[0]| < |s| ==> s[|Split(s, sep)[0]|] == sep
    decreases |s|
  {
    if s != [] && s[0] != sep {
      SplitFirstPiece(s[1..], sep);
    }
  }

  /** The last piece is the longest separator-free suffix. */
  lemma {:induction false} SplitLastPiece(s: string, sep: char)
    ensures var p := Split(s, sep)[|Split(s, sep)| - 1];
      |p| <= |s| && p == s[|s| - |p|..] && (|p| < |s| ==> s[|s| - |p| - 1] == sep)
    decreases |s|
  {
    if s != [] {
      var rest := Split(s[1..], sep);
      SplitLastPiece(s[1..], sep);
      var q := rest[|rest| - 1];
      if s[0] == sep || |rest| > 1 {
        var all := Split(s, sep);
        assert all[|all| - 1] == q;
        assert s[1..][|s| - 1 - |q|..] == s[|s| - |q|..];
        if |q| < |s| - 1 {
          assert s[1..][|s| - 1 - |q| - 1] == sep;
        } else if s[0] != sep {
          SplitHasSeveralPieces(s[1..], sep);
          assert false;
        }
      } else {
        JoinOfSplit(s[1..], sep);
        assert rest[0] == s[1..];
        assert s == [s[0]] + s[1..];
      }
    }
  }

  /** `s.lstrip(chars)`: drops the leading characters that occur in `chars`. */
  function LStrip(s: string, chars: string): (r: string)
    ensures |r| <= |s| && r == s[|s| - |r|..]
    ensures forall k :: 0 <= k < |s| - |r| ==> s[k] in chars
    ensures r != [] ==> r[0] !in chars
    decreases |s|
  {
    if s != [] && s[0] in chars then LStrip(s[1..], chars) else s
  }

  /** `s.rstrip(chars)`: drops the trailing characters that occur in `chars`. */
  function RStrip(s: string, chars: string): (r: string)
    ensures |r| <= |s| && r == s[..|r|]
    ensures forall k :: |r| <= k < |s| ==> s[k] in chars
    ensures r != [] ==> r[|r| - 1] !in chars
    decreases |s|
  {
    if s != [] && s[|s| - 1] in chars then RStrip(s[..|s| - 1], chars) else s
  }

  /** `s.strip(chars)`: both ends; the result neither starts nor ends with a stripped character. */
  function Strip(s: string, chars: string): (r: string)
    ensures |r| <= |s|
    ensures r != [] ==> r[0] !in chars && r[|r| - 1] !in chars
    ensures r == [] ==> forall k :: 0 <= k < |s| ==> s[k] in chars
  {
    RStrip(LStrip(s, chars), chars)
  }

  /** The stripped string is the infix of `s` left after removing stripped characters at both ends. */
  lemma StripIsInfix(s: string, chars: string) returns (i: nat)
    ensures i + |Strip(s, chars)| <= |s|
    ensures Strip(s, chars) == s[i..i + |Strip(s, chars)|]
    ensures forall k :: 0 <= k < i ==> s[k] in chars
    ensures forall k :: i + |Strip(s, chars)| <= k < |s| ==> s[k] in chars
  {
    var l := LStrip(s, chars);
    i := |s| - |l|;
    var r := RStrip(l, chars);
    assert r == l[..|r|];
    assert l == s[i..];
    assert forall k :: i + |r| <= k < |s| ==> s[k] == l[k - i];
  }

  /** `strip` leaves `s` alone exactly when `s` neither starts nor ends with a stripped character. */
  lemma StripFixedPoint(s: string, chars: string)
    ensures Strip(s, chars) == s <==> (s == [] || (s[0] !in chars && s[|s| - 1] !in chars))
  {
    if s != [] && s[0] !in chars && s[|s| - 1] !in chars {
      assert LStrip(s, chars) == s;
      assert RStrip(s, chars) == s;
    }
  }

  /** Stripping a run of stripped characters in front of an already stripped word yields the word. */
  lemma {:induction false} StripAfterPrefix(pre: string, w: string, chars: string)
    requires forall k :: 0 <= k < |pre| ==> pre[k] in chars
    requires w == [] || (w[0] !in chars && w[|w| - 1] !in chars)
    ensures Strip(pre + w, chars) == w
    decreases |pre|
  {
    if pre == [] {
      assert pre + w == w;
      StripFixedPoint(w, chars);
    } else {
      assert (pre + w)[1..] == pre[1..] + w;
      StripAfterPrefix(pre[1..], w, chars);
    }
  }
}
