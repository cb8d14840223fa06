/**
 * The JavaScript string operations the components rely on, on strings of
 * Unicode scalar values: `String.prototype.trim`, `split('\n')` and its
 * inverse `join('\n')`.
 */
module JsString {

  /** An ECMAScript WhiteSpace or LineTerminator code point: what `trim` removes. */
  predicate IsWs(c: char) {
    c == '\t' || c == '\n' || c == '\U{B}' || c == '\U{C}' || c == '\r' || c == ' ' ||
    c == '\U{A0}' || c == '\U{1680}' || ('\U{2000}' <= c <= '\U{200A}') ||
    c == '\U{2028}' || c == '\U{2029}' || c == '\U{202F}' || c == '\U{205F}' ||
    c == '\U{3000}' || c == '\U{FEFF}'
  }

  /** Every character is whitespace (the empty string included). */
  predicate IsBlank(s: string) {
    forall i :: 0 <= i < |s| ==> IsWs(s[i])
  }

  /** Removes the leading whitespace. */
  function TrimStart(s: string): string {
    if |s| > 0 && IsWs(s[0]) then TrimStart(s[1..]) else s
  }

  /** Removes the trailing whitespace. */
  function TrimEnd(s: string): string {
    if |s| > 0 && IsWs(s[|s| - 1]) then TrimEnd(s[..|s| - 1]) else s
  }

  /** `s.trim()`: `s` without its leading and trailing whitespace. */
  function Trim(s: string): string {
    TrimEnd(TrimStart(s))
  }

  /** `TrimStart` leaves a suffix of `s` that does not start with whitespace, after a blank prefix. */
  lemma {:induction false} TrimStartSuffix(s: string)
    ensures var r := TrimStart(s);
      |r| <= |s| && r == s[|s| - |r|..] && IsBlank(s[..|s| - |r|]) && (r == [] || !IsWs(r[0]))
  {
    if |s| > 0 && IsWs(s[0]) {
      TrimStartSuffix(s[1..]);
      var r := TrimStart(s[1..]);
      assert s[..|s| - |r|] == [s[0]] + s[1..][..|s| - 1 - |r|];
    }
  }

  /** `TrimEnd` leaves a prefix of `s` that does not end with whitespace, before a blank suffix. */
  lemma {:induction false} TrimEndPrefix(s: string)
    ensures var r := TrimEnd(s);
      |r| <= |s| && r == s[..|r|] && IsBlank(s[|r|..]) && (r == [] || !IsWs(r[|r| - 1]))
  {
    if |s| > 0 && IsWs(s[|s| - 1]) {
      TrimEndPrefix(s[..|s| - 1]);
      var r := TrimEnd(s[..|s| - 1]);
      assert s[|r|..] == s[..|s| - 1][|r|..] + [s[|s| - 1]];
    }
  }

  /**
   * `s.trim()` is `s` with a blank prefix and a blank suffix removed, and it
   * neither starts nor ends with whitespace.
   */
  lemma TrimSlice(s: string)
    ensures var r := Trim(s);
      (exists i :: 0 <= i <= |s| - |r| && r == s[i..i + |r|] && IsBlank(s[..i]) && IsBlank(s[i + |r|..])) &&
      (r == [] || (!IsWs(r[0]) && !IsWs(r[|r| - 1])))
  {
    var t := TrimStart(s);
    TrimStartSuffix(s);
    TrimEndPrefix(t);
    var r := Trim(s);
    var i := |s| - |t|;
    assert r == s[i..i + |r|];
    assert s[i + |r|..] == t[|r|..];
    if r != [] {
      assert t[0] == r[0];
    }
  }

  /** `trim()` gives the empty string exactly for whitespace-only strings. */
  lemma TrimEmptyIffBlank(s: string)
    ensures Trim(s) == [] <==> IsBlank(s)
  {
    var t := TrimStart(s);
    TrimStartSuffix(s);
    TrimEndPrefix(t);
    if Trim(s) == [] {
      assert t[0..] == t;
      assert s[..|s|] == s;
    }
  }

  /** `s.split('\n')`: the pieces between newlines, in order; there is always at least one. */
  function Split(s: string): (r: seq<string>)
    ensures |r| >= 1
  {
    if s == [] then [[]]
    else
      var rest := Split(s[1..]);
      if s[0] == '\n' then [[]] + rest
      else [[s[0]] + rest[0]] + rest[1..]
  }

  /** `pieces.join('\n')`. */
  function Join(pieces: seq<string>): string {
    if |pieces| == 0 then []
    else if |pieces| == 1 then pieces[0]
    else pieces[0] + "\n" + Join(pieces[1..])
  }

  /** No piece of a list holds a newline: the lists `Split` can produce, when non-empty. */
  predicate NoNewlines(pieces: seq<string>) {
    forall i :: 0 <= i < |pieces| ==> '\n' !in pieces[i]
  }

  /** No piece of a split holds a newline. */
  lemma {:induction false} SplitNoNewlines(s: string)
    ensures NoNewlines(Split(s))
  {
    if s != [] {
      SplitNoNewlines(s[1..]);
      var rest := Split(s[1..]);
      if s[0] != '\n' {
        assert '\n' !in [s[0]] + rest[0];
        assert Split(s)[1..] == rest[1..];
      }
    }
  }

  /** Joining the pieces of a split with newlines gives back the string. */
  lemma {:induction false} JoinSplit(s: string)
    ensures Join(Split(s)) == s
  {
    if s != [] {
      var rest := Split(s[1..]);
      JoinSplit(s[1..]);
      if s[0] == '\n' {
        assert Split(s) == [[]] + rest;
        assert ([[]] + rest)[1..] == rest;
      } else {
        var r := Split(s);
        assert r == [[s[0]] + rest[0]] + rest[1..];
        if |rest| == 1 {
          assert r == [[s[0]] + rest[0]];
        } else {
          assert r[1..] == rest[1..];
          assert Join(rest) == rest[0] + "\n" + Join(rest[1..]);
        }
      }
    }
  }

  /** A newline-free prefix followed by a newline splits off as one piece. */
  lemma {:induction false} SplitCons(a: string, b: string)
    requires '\n' !in a
    ensures Split(a + "\n" + b) == [a] + Split(b)
    decreases |a|
  {
    if a == [] {
      assert a + "\n" + b == "\n" + b;
      assert ("\n" + b)[1..] == b;
    } else {
      var s := a + "\n" + b;
      assert s[0] == a[0] && s[1..] == a[1..] + "\n" + b;
      SplitCons(a[1..], b);
      assert [a[0]] + a[1..] == a;
    }
  }

  /** A newline-free string is a single piece. */
  lemma {:induction false} SplitSingle(a: string)
    requires '\n' !in a
    ensures Split(a) == [a]
    decreases |a|
  {
    if a != [] {
      SplitSingle(a[1..]);
      assert [a[0]] + a[1..] == a;
    }
  }

  /** Splitting a join of newline-free pieces gives back the pieces. */
  lemma {:induction false} SplitJoin(pieces: seq<string>)
    requires |pieces| >= 1 && NoNewlines(pieces)
    ensures Split(Join(pieces)) == pieces
  {
    if |pieces| == 1 {
      SplitSingle(pieces[0]);
    } else {
      SplitJoin(pieces[1..]);
      SplitCons(pieces[0], Join(pieces[1..]));
    }
  }

  /** Joining one more piece appends a newline and the piece. */
  lemma {:induction false} JoinAppend(pieces: seq<string>, last: string)
    requires |pieces| >= 1
    ensures Join(pieces + [last]) == Join(pieces) + "\n" + last
  {
    if |pieces| > 1 {
      assert (pieces + [last])[1..] == pieces[1..] + [last];
      JoinAppend(pieces[1..], last);
    }
  }

  /** A joined list is whitespace-only exactly when every piece is, since the newline is whitespace. */
  lemma {:induction false} JoinBlank(pieces: seq<string>)
    ensures IsBlank(Join(pieces)) <==> forall i :: 0 <= i < |pieces| ==> IsBlank(pieces[i])
  {
    if |pieces| > 1 {
      JoinBlank(pieces[1..]);
      var j := Join(pieces[1..]);
      var s := pieces[0] + "\n" + j;
      assert forall i :: 0 <= i < |pieces[0]| ==> s[i] == pieces[0][i];
      assert s[|pieces[0]|] == '\n';
      assert forall i :: 0 <= i < |j| ==> s[|pieces[0]| + 1 + i] == j[i];
      if IsBlank(s) {
        forall k | 0 <= k < |pieces| ensures IsBlank(pieces[k]) {
          if k > 0 {
            assert pieces[k] == pieces[1..][k - 1];
            assert IsBlank(j) by {
              forall i | 0 <= i < |j| ensures IsWs(j[i]) {
                assert s[|pieces[0]| + 1 + i] == j[i];
              }
            }
          }
        }
      }
      if forall k :: 0 <= k < |pieces| ==> IsBlank(pieces[k]) {
        assert forall k :: 0 <= k < |pieces| - 1 ==> pieces[1..][k] == pieces[k + 1];
        assert IsBlank(j);
        forall i | 0 <= i < |s| ensures IsWs(s[i]) {
          if i > |pieces[0]| {
            assert s[i] == j[i - |pieces[0]| - 1];
          }
        }
      }
    }
  }
}
