/**
 * String helpers with the semantics of the lodash and JavaScript string
 * functions the plugin calls: `_.trim` / `_.trimEnd` with a character set,
 * `String.prototype.trim`, `Array.prototype.join`, `String.prototype.split`
 * on one character, and the decimal form of an integer.
 */
module Text {

  /** The characters `_.trim(s, '/')` removes. */
  const Slash: set<char> := {'/'}

  /**
   * The characters `String.prototype.trim` removes: the ECMAScript
   * WhiteSpace and LineTerminator code points.
   */
  const JsWhitespace: set<char> := {
    '\t', '\n', '\U{000B}', '\U{000C}', '\r', ' ', '\U{00A0}', '\U{1680}',
    '\U{2000}', '\U{2001}', '\U{2002}', '\U{2003}', '\U{2004}', '\U{2005}',
    '\U{2006}', '\U{2007}', '\U{2008}', '\U{2009}', '\U{200A}', '\U{2028}',
    '\U{2029}', '\U{202F}', '\U{205F}', '\U{3000}', '\U{FEFF}'
  }

  /** `s` with every leading character that is in `cs` removed. */
  function TrimStart(s: string, cs: set<char>): (r: string)
    ensures |r| <= |s|
  {
    if s != [] && s[0] in cs then TrimStart(s[1..], cs) else s
  }

  /** `s` with every trailing character that is in `cs` removed. */
  function TrimEnd(s: string, cs: set<char>): (r: string)
    ensures |r| <= |s|
  {
    if s != [] && s[|s| - 1] in cs then TrimEnd(s[..|s| - 1], cs) else s
  }

  /**
   * `TrimStart` removes a prefix made only of characters of `cs`, and stops
   * at the first character outside `cs`.
   */
  lemma {:induction false} TrimStartSpec(s: string, cs: set<char>)
    ensures var r := TrimStart(s, cs);
      r == s[|s| - |r|..]
      && (r == [] || r[0] !in cs)
      && forall i :: 0 <= i < |s| - |r| ==> s[i] in cs
  {
    if s != [] && s[0] in cs {
      var t := s[1..];
      TrimStartSpec(t, cs);
      var r := TrimStart(t, cs);
      assert t[|t| - |r|..] == s[|s| - |r|..];
      forall i | 1 <= i < |s| - |r| ensures s[i] in cs {
        assert s[i] == t[i - 1];
      }
    }
  }

  /**
   * `TrimEnd` removes a suffix made only of characters of `cs`, and stops
   * at the last character outside `cs`.
   */
  lemma {:induction false} TrimEndSpec(s: string, cs: set<char>)
    ensures var r := TrimEnd(s, cs);
      r == s[..|r|]
      && (r == [] || r[|r| - 1] !in cs)
      && forall i :: |r| <= i < |s| ==> s[i] in cs
  {
    if s != [] && s[|s| - 1] in cs {
      var t := s[..|s| - 1];
      TrimEndSpec(t, cs);
      var r := TrimEnd(t, cs);
      assert t[..|r|] == s[..|r|];
      forall i | |r| <= i < |s| ensures s[i] in cs {
        if i < |t| {
          assert s[i] == t[i];
        }
      }
    }
  }

  lemma TrimStartKeeps(s: string, cs: set<char>)
    requires s == [] || s[0] !in cs
    ensures TrimStart(s, cs) == s
  {
  }

  lemma TrimStartDrops(s: string, cs: set<char>)
    requires s != [] && s[0] in cs
    ensures TrimStart(s, cs) == TrimStart(s[1..], cs)
  {
  }

  lemma TrimEndKeeps(s: string, cs: set<char>)
    requires s == [] || s[|s| - 1] !in cs
    ensures TrimEnd(s, cs) == s
  {
  }

  /** `s` with the characters of `cs` removed from both ends. */
  function Trim(s: string, cs: set<char>): (r: string)
    ensures |r| <= |s|
  {
    TrimStart(TrimEnd(s, cs), cs)
  }

  /** Neither end of a trimmed string is in `cs`. */
  lemma TrimSpec(s: string, cs: set<char>)
    ensures var r := Trim(s, cs); r == [] || (r[0] !in cs && r[|r| - 1] !in cs)
  {
    var e := TrimEnd(s, cs);
    var r := TrimStart(e, cs);
    TrimEndSpec(s, cs);
    TrimStartSpec(e, cs);
    if r != [] {
      assert r[|r| - 1] == e[|e| - 1];
    }
  }

  /** A string is left alone by `Trim` exactly when neither end is in `cs`. */
  lemma TrimFixedPoint(s: string, cs: set<char>)
    ensures Trim(s, cs) == s <==> (s == [] || (s[0] !in cs && s[|s| - 1] !in cs))
  {
    TrimSpec(s, cs);
    if s != [] && s[0] !in cs && s[|s| - 1] !in cs {
      TrimEndKeeps(s, cs);
      TrimStartKeeps(s, cs);
    }
  }

  /** Trimming removes characters of `cs` only: the result is empty exactly when `s` consists of them. */
  lemma TrimEmpty(s: string, cs: set<char>)
    ensures Trim(s, cs) == [] <==> forall i :: 0 <= i < |s| ==> s[i] in cs
  {
    var e := TrimEnd(s, cs);
    TrimEndSpec(s, cs);
    TrimStartSpec(e, cs);
    if Trim(s, cs) == [] {
      assert e == [];
    } else {
      var r := Trim(s, cs);
      assert r[0] == e[|e| - |r|] == s[|e| - |r|];
    }
  }

  /** The elements of `parts` with `sep` between each two (`Array.prototype.join`). */
  function Join(parts: seq<string>, sep: string): (r: string)
    ensures |parts| == 1 ==> r == parts[0]
    decreases |parts|
  {
    if |parts| == 0 then []
    else if |parts| == 1 then parts[0]
    else parts[0] + sep + Join(parts[1..], sep)
  }

  /** The pieces of `s` between occurrences of `c` (`String.prototype.split` on one character). */
  function Split(s: string, c: char): (r: seq<string>)
    ensures |r| >= 1
    ensures forall k :: 0 <= k < |r| ==> c !in r[k]
  {
    if s == [] then [[]]
    else
      var rest := Split(s[1..], c);
      if s[0] == c then [[]] + rest
      else [[s[0]] + rest[0]] + rest[1..]
  }

  /** Joining the pieces of a split with the separator gives back the string. */
  lemma {:induction false} JoinSplit(s: string, c: char)
    ensures Join(Split(s, c), [c]) == s
  {
    if s != [] {
      var rest := Split(s[1..], c);
      if s[0] == c {
        calc {
          Join(Split(s, c), [c]);
          Join([[]] + rest, [c]);
          { assert ([[]] + rest)[1..] == rest; }
          [] + [c] + Join(rest, [c]);
          { JoinSplit(s[1..], c); }
          [s[0]] + s[1..];
          s;
        }
      } else {
        var first := [s[0]] + rest[0];
        assert Split(s, c) == [first] + rest[1..];
        if |rest| == 1 {
          calc {
            Join(Split(s, c), [c]);
            first;
            [s[0]] + Join(rest, [c]);
            { JoinSplit(s[1..], c); }
            s;
          }
        } else {
          calc {
            Join(Split(s, c), [c]);
            { assert ([first] + rest[1..])[1..] == rest[1..]; }
            first + [c] + Join(rest[1..], [c]);
            [s[0]] + (rest[0] + [c] + Join(rest[1..], [c]));
            [s[0]] + Join(rest, [c]);
            { JoinSplit(s[1..], c); }
            s;
          }
        }
      }
    }
  }

  /** Splitting a join of pieces free of the separator gives back the pieces. */
  lemma {:induction false} SplitJoin(parts: seq<string>, c: char)
    requires |parts| >= 1
    requires forall k :: 0 <= k < |parts| ==> c !in parts[k]
    ensures Split(Join(parts, [c]), c) == parts
    decreases |parts|, |parts[0]|
  {
    var p := parts[0];
    if p == [] {
      if |parts| > 1 {
        SplitJoin(parts[1..], c);
        var j := Join(parts, [c]);
        assert j == [c] + Join(parts[1..], [c]);
        assert j[1..] == Join(parts[1..], [c]);
        assert parts == [[]] + parts[1..];
      }
    } else {
      var shorter := [p[1..]] + parts[1..];
      SplitJoin(shorter, c);
      var j := Join(parts, [c]);
      if |parts| == 1 {
        assert j == p;
        assert j[1..] == Join(shorter, [c]);
      } else {
        assert j == p + [c] + Join(parts[1..], [c]);
        assert Join(shorter, [c]) == p[1..] + [c] + Join(parts[1..], [c]);
        assert j[1..] == Join(shorter, [c]);
      }
      assert j[0] == p[0];
      assert [p[0]] + p[1..] == p;
      assert parts == [p] + parts[1..];
    }
  }

  /** The decimal digit for `d`. */
  function Digit(d: nat): (r: char)
    requires d < 10
    ensures '0' <= r <= '9'
  {
    "0123456789"[d]
  }

  /** The decimal form of `n`, as JavaScript prints a non-negative integer. */
  function NatToString(n: nat): (r: string)
    ensures |r| >= 1
    ensures forall k :: 0 <= k < |r| ==> '0' <= r[k] <= '9'
    ensures r[0] == '0' ==> n == 0
  {
    if n < 10 then [Digit(n)] else NatToString(n / 10) + [Digit(n % 10)]
  }

  /** The decimal form of `i`, with a leading `-` for a negative number. */
  function IntToString(i: int): (r: string)
    ensures |r| >= 1
    ensures r[0] == '-' <==> i < 0
  {
    if i < 0 then "-" + NatToString(-i) else NatToString(i)
  }
}
