/**
  * String helpers with the semantics of the .NET and JavaScript library calls the
  * storefront uses: `Trim`, `IsNullOrWhiteSpace`, `ToLower`/`toUpperCase`,
  * `Split`/`join`, `Contains`/`includes` and `StartsWith`/`startsWith`.
  * Only ASCII case mapping and ASCII white space are modelled.
  */
module Text {
  import opened Wrappers
  import Queries

  /** White space as `char.IsWhiteSpace` and `String.prototype.trim` see it, restricted to ASCII. */
  predicate IsSpace(c: char)
  {
    c == ' ' || c == '\t' || c == '\n' || c == '\r' || c == '\U{000B}' || c == '\U{000C}'
  }

  /** Every character is white space (true of the empty string). */
  predicate IsBlank(s: string)
  {
    forall i :: 0 <= i < |s| ==> IsSpace(s[i])
  }

  /** `string.IsNullOrWhiteSpace`: absent, empty or only white space. */
  predicate IsNullOrWhiteSpace(s: Option<string>)
  {
    s.None? || IsBlank(s.value)
  }

  /** Neither end of `s` is white space. */
  predicate IsTrimmed(s: string)
  {
    |s| == 0 || (!IsSpace(s[0]) && !IsSpace(s[|s| - 1]))
  }

  /** `s` without its leading white space. */
  function TrimStart(s: string): (r: string)
    ensures |r| <= |s| && r == s[|s| - |r|..]
    ensures IsBlank(s[..|s| - |r|])
    ensures |r| > 0 ==> !IsSpace(r[0])
  {
    if |s| > 0 && IsSpace(s[0]) then TrimStart(s[1..]) else s
  }

  /** `s` without its trailing white space. */
  function TrimEnd(s: string): (r: string)
    ensures |r| <= |s| && r == s[..|r|]
    ensures IsBlank(s[|r|..])
    ensures |r| > 0 ==> !IsSpace(r[|r| - 1])
  {
    if |s| > 0 && IsSpace(s[|s| - 1]) then TrimEnd(s[..|s| - 1]) else s
  }

  /** `string.Trim()` / `String.prototype.trim()`. */
  function Trim(s: string): (r: string)
    ensures IsTrimmed(r)
    ensures r == "" <==> IsBlank(s)
    ensures IsTrimmed(s) ==> r == s
    ensures |r| <= |s|
  {
    var a := TrimStart(s);
    var r := TrimEnd(a);
    assert |r| > 0 ==> r[0] == a[0];
    assert r == "" ==> IsBlank(s) by {
      if r == "" {
        assert |a| == 0;
        forall i | 0 <= i < |s| ensures IsSpace(s[i]) {
          assert s[i] == s[..|s| - |a|][i];
        }
      }
    }
    assert IsTrimmed(s) ==> r == s by {
      if IsTrimmed(s) && |s| > 0 {
        assert a == s;
        assert TrimEnd(s) == s;
      }
    }
    r
  }

  /** Trimming only removes characters. */
  lemma TrimSubset(s: string)
    ensures forall c :: c in Trim(s) ==> c in s
  {
    TrimStartSubset(s);
    TrimEndSubset(TrimStart(s));
  }

  /** Dropping leading white space only removes characters. */
  lemma TrimStartSubset(s: string)
    ensures forall c :: c in TrimStart(s) ==> c in s
  {
    var k := |s| - |TrimStart(s)|;
    forall c | c in TrimStart(s)
      ensures c in s
    {
      InSlice(s, k, |s|, c);
    }
  }

  /** Dropping trailing white space only removes characters. */
  lemma TrimEndSubset(s: string)
    ensures forall c :: c in TrimEnd(s) ==> c in s
  {
    forall c | c in TrimEnd(s)
      ensures c in s
    {
      InSlice(s, 0, |TrimEnd(s)|, c);
    }
  }

  /** A character of a slice is a character of the string. */
  lemma InSlice(s: string, lo: int, hi: int, c: char)
    requires 0 <= lo <= hi <= |s| && c in s[lo..hi]
    ensures c in s
  {
    var i :| 0 <= i < hi - lo && s[lo..hi][i] == c;
    assert s[lo + i] == c;
  }

  /** A leading blank does not survive trimming. */
  lemma TrimLeadingSpace(s: string)
    ensures Trim(" " + s) == Trim(s)
  {
    assert (" " + s)[1..] == s;
  }

  /** Trimming is idempotent. */
  lemma TrimIdempotent(s: string)
    ensures Trim(Trim(s)) == Trim(s)
  {
  }

  /** ASCII `ToLower` of one character. */
  function LowerChar(c: char): char
  {
    if 'A' <= c <= 'Z' then (c as int + 32) as char else c
  }

  /** ASCII `ToUpper` of one character. */
  function UpperChar(c: char): char
  {
    if 'a' <= c <= 'z' then (c as int - 32) as char else c
  }

  /** `ToLower()` / `toLowerCase()`, ASCII only. */
  function ToLower(s: string): (r: string)
    ensures |r| == |s|
    ensures forall i :: 0 <= i < |s| ==> r[i] == LowerChar(s[i])
  {
    seq(|s|, i requires 0 <= i < |s| => LowerChar(s[i]))
  }

  /** `ToUpper()` / `toUpperCase()`, ASCII only. */
  function ToUpper(s: string): (r: string)
    ensures |r| == |s|
    ensures forall i :: 0 <= i < |s| ==> r[i] == UpperChar(s[i])
  {
    seq(|s|, i requires 0 <= i < |s| => UpperChar(s[i]))
  }

  /** Lower-casing keeps a string trimmed. */
  lemma ToLowerTrimmed(s: string)
    requires IsTrimmed(s)
    ensures IsTrimmed(ToLower(s))
  {
  }

  /** Lower-casing introduces no character that is not a letter, such as a separator. */
  lemma ToLowerKeepsAbsent(s: string, c: char)
    requires c !in s && !('a' <= c <= 'z')
    ensures c !in ToLower(s)
  {
    forall i | 0 <= i < |s|
      ensures ToLower(s)[i] != c
    {
      assert s[i] != c;
    }
  }

  /** Upper-casing keeps a string trimmed. */
  lemma ToUpperTrimmed(s: string)
    requires IsTrimmed(s)
    ensures IsTrimmed(ToUpper(s))
  {
  }

  /** An upper-cased string has no lower-case ASCII letter. */
  lemma ToUpperNoLower(s: string)
    ensures forall i :: 0 <= i < |ToUpper(s)| ==> !('a' <= ToUpper(s)[i] <= 'z')
  {
    forall i | 0 <= i < |s|
      ensures !('a' <= UpperChar(s[i]) <= 'z')
    {
    }
  }

  /** Lower-casing twice is lower-casing once. */
  lemma ToLowerIdempotent(s: string)
    ensures ToLower(ToLower(s)) == ToLower(s)
  {
  }

  /** `string.Equals(b, StringComparison.OrdinalIgnoreCase)`, ASCII only. */
  predicate EqualsIgnoreCase(a: string, b: string)
  {
    ToLower(a) == ToLower(b)
  }

  /** `StartsWith` / `startsWith`. */
  predicate StartsWith(s: string, prefix: string)
  {
    |prefix| <= |s| && s[..|prefix|] == prefix
  }

  /** `Contains` / `includes`: `t` occurs in `s` at some offset. */
  predicate Contains(s: string, t: string)
  {
    exists i :: 0 <= i <= |s| && OccursAt(s, t, i)
  }

  /** `t` occurs in `s` starting at offset `i`. */
  predicate OccursAt(s: string, t: string, i: int)
  {
    0 <= i && i + |t| <= |s| && s[i..i + |t|] == t
  }

  /** `s.Split(sep)` / `s.split(sep)`: the pieces between separators; n separators give n + 1 pieces. */
  function Split(s: string, sep: char): (r: seq<string>)
    ensures |r| >= 1
    ensures forall i :: 0 <= i < |r| ==> sep !in r[i]
    decreases |s|
  {
    if |s| == 0 then [""]
    else if s[0] == sep then [""] + Split(s[1..], sep)
    else
      var rest := Split(s[1..], sep);
      [[s[0]] + rest[0]] + rest[1..]
  }

  /** `xs.join(sep)` / `string.Join(sep, xs)`. */
  function Join(xs: seq<string>, sep: string): string
  {
    if |xs| == 0 then ""
    else if |xs| == 1 then xs[0]
    else xs[0] + sep + Join(xs[1..], sep)
  }

  /** A join begins with its first piece. */
  lemma JoinStartsWithHead(xs: seq<string>, sep: string)
    requires |xs| > 0
    ensures |Join(xs, sep)| >= |xs[0]| && Join(xs, sep)[..|xs[0]|] == xs[0]
  {
    if |xs| > 1 {
      assert Join(xs, sep) == xs[0] + (sep + Join(xs[1..], sep));
    }
  }

  /** A join ends with its last piece. */
  lemma {:induction false} JoinEndsWithLast(xs: seq<string>, sep: string)
    requires |xs| > 0
    ensures var j := Join(xs, sep); var l := xs[|xs| - 1];
      |j| >= |l| && j[|j| - |l|..] == l
    decreases |xs|
  {
    if |xs| > 1 {
      JoinEndsWithLast(xs[1..], sep);
      var rest := Join(xs[1..], sep);
      assert Join(xs, sep) == (xs[0] + sep) + rest;
    }
  }

  /** A trimmed string that is not empty: what the message lists keep. */
  predicate IsMessage(s: string)
  {
    |s| > 0 && IsTrimmed(s)
  }

  /** `.map(s => s.trim()).filter(Boolean)`: the trimmed pieces that are not empty, in order. */
  function KeepTrimmed(xs: seq<string>): (r: seq<string>)
    ensures forall i :: 0 <= i < |r| ==> IsMessage(r[i])
    ensures |r| == 0 <==> forall i :: 0 <= i < |xs| ==> IsBlank(xs[i])
    ensures |r| <= |xs|
  {
    if |xs| == 0 then []
    else
      var t := Trim(xs[0]);
      var rest := KeepTrimmed(xs[1..]);
      AllBlankSplit(xs);
      if t == "" then rest
      else
        MessagesCons(t, rest);
        [t] + rest
  }

  /** Every piece is blank exactly when the first is and every later one is. */
  lemma AllBlankSplit(xs: seq<string>)
    requires |xs| > 0
    ensures (forall i :: 0 <= i < |xs| ==> IsBlank(xs[i])) <==>
            IsBlank(xs[0]) && forall i :: 0 <= i < |xs[1..]| ==> IsBlank(xs[1..][i])
  {
    assert forall i :: 1 <= i < |xs| ==> xs[i] == xs[1..][i - 1];
  }

  /** A message in front of a list of messages gives a list of messages. */
  lemma MessagesCons(t: string, rest: seq<string>)
    requires IsMessage(t) && forall i :: 0 <= i < |rest| ==> IsMessage(rest[i])
    ensures forall i :: 0 <= i < |[t] + rest| ==> IsMessage(([t] + rest)[i])
  {
    var r := [t] + rest;
    assert forall i :: 1 <= i < |r| ==> r[i] == rest[i - 1];
  }

  /** A string with at least one visible character. */
  predicate NonBlank(s: string)
  {
    !IsBlank(s)
  }

  /** The kept lines are exactly the trimmed forms of the non-blank pieces, in their order. */
  lemma {:induction false} KeepTrimmedIsTrimOfNonBlank(xs: seq<string>)
    ensures KeepTrimmed(xs) == Queries.Select(Queries.Where(xs, NonBlank), Trim)
    decreases |xs|
  {
    if |xs| > 0 {
      KeepTrimmedIsTrimOfNonBlank(xs[1..]);
      var rest := Queries.Where(xs[1..], NonBlank);
      if NonBlank(xs[0]) {
        assert Queries.Where(xs, NonBlank) == [xs[0]] + rest;
        Queries.SelectCons(xs[0], rest, Trim);
      } else {
        assert Queries.Where(xs, NonBlank) == rest;
      }
    }
  }

  /** Pieces that are already trimmed and non-empty are kept as they are. */
  lemma {:induction false} KeepTrimmedFixed(xs: seq<string>)
    requires forall i :: 0 <= i < |xs| ==> IsMessage(xs[i])
    ensures KeepTrimmed(xs) == xs
    decreases |xs|
  {
    if |xs| > 0 {
      KeepTrimmedFixed(xs[1..]);
      assert xs == [xs[0]] + xs[1..];
    }
  }

  /** A piece free of the separator splits to itself. */
  lemma {:induction false} SplitNoSep(w: string, sep: char)
    requires sep !in w
    ensures Split(w, sep) == [w]
    decreases |w|
  {
    if |w| > 0 {
      SplitNoSep(w[1..], sep);
      assert [w[0]] + w[1..] == w;
    }
  }

  /** A separator-free head is split off as one piece. */
  lemma {:induction false} SplitHead(w: string, sep: char, rest: string)
    requires sep !in w
    ensures Split(w + [sep] + rest, sep) == [w] + Split(rest, sep)
    decreases |w|
  {
    if |w| == 0 {
      assert w + [sep] + rest == [sep] + rest;
      assert ([sep] + rest)[1..] == rest;
    } else {
      var s := w + [sep] + rest;
      assert s[0] == w[0];
      assert s[1..] == w[1..] + [sep] + rest;
      SplitHead(w[1..], sep, rest);
      assert [w[0]] + w[1..] == w;
    }
  }

  /** Splitting a join of separator-free pieces gives the pieces back. */
  lemma {:induction false} SplitJoin(xs: seq<string>, sep: char)
    requires |xs| >= 1
    requires forall i :: 0 <= i < |xs| ==> sep !in xs[i]
    ensures Split(Join(xs, [sep]), sep) == xs
    decreases |xs|
  {
    if |xs| == 1 {
      SplitNoSep(xs[0], sep);
    } else {
      SplitJoin(xs[1..], sep);
      SplitHead(xs[0], sep, Join(xs[1..], [sep]));
      assert [xs[0]] + xs[1..] == xs;
    }
  }

  /** Joining the pieces of a split gives the string back. */
  lemma {:induction false} JoinSplit(s: string, sep: char)
    ensures Join(Split(s, sep), [sep]) == s
    decreases |s|
  {
    if |s| > 0 {
      JoinSplit(s[1..], sep);
      var rest := Split(s[1..], sep);
      if s[0] == sep {
        assert Split(s, sep) == [""] + rest;
        assert ([""] + rest)[1..] == rest;
        assert [s[0]] + s[1..] == s;
      } else {
        var r := Split(s, sep);
        assert r == [[s[0]] + rest[0]] + rest[1..];
        if |rest| == 1 {
          assert rest == [rest[0]];
        } else {
          assert rest[0] + [sep] + Join(rest[1..], [sep]) == Join(rest, [sep]);
          assert r[1..] == rest[1..];
        }
        assert [s[0]] + s[1..] == s;
      }
    }
  }

  /** A trailing separator adds one empty piece. */
  lemma {:induction false} SplitTrailingSep(s: string, sep: char)
    ensures Split(s + [sep], sep) == Split(s, sep) + [""]
    decreases |s|
  {
    if |s| == 0 {
      assert s + [sep] == [sep];
      assert [sep][1..] == "";
    } else {
      SplitTrailingSep(s[1..], sep);
      assert (s + [sep])[1..] == s[1..] + [sep];
    }
  }

  /** Ordinal string order (`string.CompareOrdinal` < 0): lexicographic by character code. */
  predicate StrLess(a: string, b: string)
    decreases |a|
  {
    if |a| == 0 then |b| > 0
    else if |b| == 0 then false
    else a[0] < b[0] || (a[0] == b[0] && StrLess(a[1..], b[1..]))
  }

  /** The ordinal order is a strict total order: irreflexive, transitive and trichotomous. */
  lemma {:induction false} StrLessIsStrictTotal(a: string, b: string, c: string)
    ensures !StrLess(a, a)
    ensures StrLess(a, b) && StrLess(b, c) ==> StrLess(a, c)
    ensures a == b || StrLess(a, b) || StrLess(b, a)
    ensures !(StrLess(a, b) && StrLess(b, a))
    decreases |a|
  {
    if |a| > 0 && |b| > 0 && |c| > 0 {
      StrLessIsStrictTotal(a[1..], b[1..], c[1..]);
      if a[0] == b[0] && a[1..] == b[1..] {
        assert a == [a[0]] + a[1..] && b == [b[0]] + b[1..];
      }
    } else if |a| > 0 && |b| > 0 {
      StrLessIsStrictTotal(a[1..], b[1..], b[1..]);
      if a[0] == b[0] && a[1..] == b[1..] {
        assert a == [a[0]] + a[1..] && b == [b[0]] + b[1..];
      }
    } else if |a| > 0 {
      StrLessIsStrictTotal(a[1..], a[1..], a[1..]);
    }
  }

  /** Decimal digits of a natural number. */
  function NatText(n: nat): (s: string)
    ensures |s| > 0
    ensures forall i :: 0 <= i < |s| ==> '0' <= s[i] <= '9'
    ensures n < 10 <==> |s| == 1
    decreases n
  {
    var d := ['0' + (n % 10) as char];
    if n < 10 then d else NatText(n / 10) + d
  }

  /** A number as `${n}` or JSX prints it. */
  function IntText(n: int): (s: string)
    ensures |s| > 0
  {
    if n < 0 then "-" + NatText(-n) else NatText(n)
  }

  /** The value of a decimal digit string. */
  function NatValue(s: string): nat
    decreases |s|
  {
    if |s| == 0 then 0
    else
      var c := s[|s| - 1];
      NatValue(s[..|s| - 1]) * 10 + (if '0' <= c <= '9' then c as int - '0' as int else 0)
  }

  /** A number's text reads back as the number. */
  lemma {:induction false} NatTextRoundTrip(n: nat)
    ensures NatValue(NatText(n)) == n
    decreases n
  {
    var d := ['0' + (n % 10) as char];
    if n >= 10 {
      NatTextRoundTrip(n / 10);
      var t := NatText(n / 10) + d;
      assert t[..|t| - 1] == NatText(n / 10);
    } else {
      assert d[..0] == "";
    }
  }
}
