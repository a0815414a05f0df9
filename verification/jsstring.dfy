/**
  The JavaScript string operations the bot relies on, stated over `seq<char>`:
  `trim`, `split(/\s+/)`, `startsWith`/`endsWith`/`includes`, `replace` with a
  string pattern, `split(c)[0]`, ASCII `toLowerCase`, `length` in UTF-16 code
  units, and decimal conversion (`${n}` and `parseInt`).
 */
module JsString {
  import opened Wrappers

  /** The characters matched by the regular-expression class `\s` and removed by `trim()`. */
  predicate IsSpace(c: char) {
    || c == ' ' || c == '\t' || c == '\n' || c == '\r' || c == '\U{B}' || c == '\U{C}'
    || c == '\U{A0}' || c == '\U{1680}' || ('\U{2000}' <= c <= '\U{200A}')
    || c == '\U{2028}' || c == '\U{2029}' || c == '\U{202F}' || c == '\U{205F}'
    || c == '\U{3000}' || c == '\U{FEFF}'
  }

  predicate NoSpace(s: string) {
    forall i :: 0 <= i < |s| ==> !IsSpace(s[i])
  }

  predicate AllSpace(s: string) {
    forall i :: 0 <= i < |s| ==> IsSpace(s[i])
  }

  /** Neither end of `s` is whitespace: what `trim()` produces. */
  predicate Trimmed(s: string) {
    s == [] || (!IsSpace(s[0]) && !IsSpace(s[|s| - 1]))
  }

  predicate StartsWith(s: string, prefix: string) {
    |prefix| <= |s| && s[..|prefix|] == prefix
  }

  predicate EndsWith(s: string, suffix: string) {
    |suffix| <= |s| && s[|s| - |suffix|..] == suffix
  }

  function TrimStart(s: string): (r: string)
    ensures |r| <= |s| && r == s[|s| - |r|..]
    ensures r == [] || !IsSpace(r[0])
    ensures AllSpace(s[..|s| - |r|])
  {
    if |s| > 0 && IsSpace(s[0]) then
      var r := TrimStart(s[1..]);
      assert s[1..][|s| - 1 - |r|..] == s[|s| - |r|..];
      SpaceBeforeSpace(s, |s| - 1 - |r|);
      r
    else s
  }

  /** A whitespace character followed by a whitespace run is a longer run. */
  lemma SpaceBeforeSpace(s: string, k: nat)
    requires 0 < |s| && k < |s| && IsSpace(s[0]) && AllSpace(s[1..][..k])
    ensures AllSpace(s[..k + 1])
  {
    var run, rest := s[..k + 1], s[1..][..k];
    forall i | 0 <= i < |run| ensures IsSpace(run[i]) {
      if i > 0 {
        assert run[i] == rest[i - 1];
      }
    }
  }

  function TrimEnd(s: string): (r: string)
    ensures |r| <= |s| && r == s[..|r|]
    ensures r == [] || !IsSpace(r[|r| - 1])
    ensures AllSpace(s[|r|..])
  {
    if |s| > 0 && IsSpace(s[|s| - 1]) then
      var r := TrimEnd(s[..|s| - 1]);
      assert s[|r|..] == s[..|s| - 1][|r|..] + [s[|s| - 1]];
      r
    else s
  }

  /** `s` is `lead + r + tail` with `lead` starting at 0 and both ends whitespace only. */
  predicate SurroundedBySpace(s: string, r: string, a: nat) {
    && a + |r| <= |s|
    && s[a..a + |r|] == r
    && AllSpace(s[..a])
    && AllSpace(s[a + |r|..])
  }

  /** `s.trim()` */
  function Trim(s: string): (r: string)
    ensures Trimmed(r)
    ensures exists a :: SurroundedBySpace(s, r, a)
    ensures r == [] <==> AllSpace(s)
  {
    var t := TrimStart(s);
    var r := TrimEnd(t);
    TrimParts(s, t, r);
    r
  }

  /** Stripping the front and then the back leaves the middle of `s` between two runs of whitespace. */
  lemma TrimParts(s: string, t: string, r: string)
    requires |t| <= |s| && t == s[|s| - |t|..] && (t == [] || !IsSpace(t[0])) && AllSpace(s[..|s| - |t|])
    requires |r| <= |t| && r == t[..|r|] && (r == [] || !IsSpace(r[|r| - 1])) && AllSpace(t[|r|..])
    ensures Trimmed(r)
    ensures SurroundedBySpace(s, r, |s| - |t|)
    ensures r == [] <==> AllSpace(s)
  {
    var a := |s| - |t|;
    assert s[a..a + |r|] == r;
    assert s[a + |r|..] == t[|r|..];
    if r == [] {
      assert t[|r|..] == t;
      forall i | 0 <= i < |s| ensures IsSpace(s[i]) {
        assert s[i] == s[..a][i];
      }
    } else {
      assert r[0] == t[0] == s[a];
    }
  }

  /** The trimmed text starts where the leading whitespace ends. */
  lemma TrimSurrounded(s: string)
    ensures SurroundedBySpace(s, Trim(s), |s| - |TrimStart(s)|)
  {
    TrimParts(s, TrimStart(s), TrimEnd(TrimStart(s)));
  }

  /** A string that starts and ends with non-whitespace is its own trim. */
  lemma TrimNoop(s: string)
    requires s != [] && !IsSpace(s[0]) && !IsSpace(s[|s| - 1])
    ensures Trim(s) == s
  {
    assert TrimStart(s) == s;
    assert TrimEnd(s) == s;
  }

  /** Trimming keeps a first character that is not whitespace. */
  lemma TrimKeepsFirst(s: string)
    requires s != [] && !IsSpace(s[0])
    ensures Trim(s) != [] && Trim(s)[0] == s[0]
  {
    var r := Trim(s);
    var a: nat :| SurroundedBySpace(s, r, a);
    assert !AllSpace(s) by {
      assert !IsSpace(s[0]);
    }
    assert r[0] == s[a..a + |r|][0];
  }

  /** Trimming is idempotent: a trimmed string has nothing left to strip. */
  lemma TrimIdempotent(s: string)
    ensures Trim(Trim(s)) == Trim(s)
  {
  }

  // ---------------------------------------------------------------- includes

  predicate MatchAt(s: string, sub: string, i: nat) {
    i + |sub| <= |s| && s[i..i + |sub|] == sub
  }

  function IndexOfFrom(s: string, sub: string, k: nat): (r: Option<nat>)
    ensures r.Some? ==> k <= r.value && MatchAt(s, sub, r.value)
    ensures r.Some? ==> forall j: nat :: k <= j < r.value ==> !MatchAt(s, sub, j)
    ensures r.None? ==> forall j: nat :: k <= j ==> !MatchAt(s, sub, j)
    decreases |s| - k
  {
    if k + |sub| > |s| then None
    else if s[k..k + |sub|] == sub then Some(k)
    else IndexOfFrom(s, sub, k + 1)
  }

  /** `s.indexOf(sub)`, `None` standing for -1: the first position where `sub` occurs. */
  function IndexOf(s: string, sub: string): (r: Option<nat>)
    ensures r.Some? ==> MatchAt(s, sub, r.value) && forall j: nat :: j < r.value ==> !MatchAt(s, sub, j)
    ensures r.None? ==> forall j: nat :: !MatchAt(s, sub, j)
  {
    IndexOfFrom(s, sub, 0)
  }

  /** `s.includes(sub)` */
  predicate Includes(s: string, sub: string)
  {
    IndexOf(s, sub).Some?
  }

  lemma IncludesIffOccurs(s: string, sub: string)
    ensures Includes(s, sub) <==> exists j: nat :: MatchAt(s, sub, j)
  {
  }

  lemma IncludesAt(s: string, sub: string, j: nat)
    requires MatchAt(s, sub, j)
    ensures Includes(s, sub)
  {
  }

  /** A text includes each of its suffixes. */
  lemma EndsWithIncludes(s: string, suffix: string)
    requires EndsWith(s, suffix)
    ensures Includes(s, suffix)
  {
    IncludesAt(s, suffix, |s| - |suffix|);
  }

  /** What a piece of a concatenation includes, the whole includes. */
  lemma IncludesInfix(a: string, b: string, c: string, sub: string)
    requires Includes(b, sub)
    ensures Includes(a + b + c, sub)
  {
    var j := IndexOf(b, sub).value;
    assert (a + b + c)[|a| + j..|a| + j + |sub|] == b[j..j + |sub|];
    IncludesAt(a + b + c, sub, |a| + j);
  }

  /** Lowercasing both sides keeps an occurrence. */
  lemma IncludesLower(s: string, sub: string)
    requires Includes(s, sub)
    ensures Includes(ToLower(s), ToLower(sub))
  {
    var j := IndexOf(s, sub).value;
    assert ToLower(s)[j..j + |sub|] == ToLower(s[j..j + |sub|]);
    IncludesAt(ToLower(s), ToLower(sub), j);
  }

  /** Trimming cannot cut into an occurrence that starts and ends with non-whitespace. */
  lemma IncludesTrim(s: string, sub: string)
    requires Includes(s, sub) && sub != [] && !IsSpace(sub[0]) && !IsSpace(sub[|sub| - 1])
    ensures Includes(Trim(s), sub)
  {
    var j := IndexOf(s, sub).value;
    TrimSurrounded(s);
    IncludesInside(s, sub, j, Trim(s), |s| - |TrimStart(s)|);
  }

  lemma IncludesInside(s: string, sub: string, j: nat, r: string, a: nat)
    requires MatchAt(s, sub, j) && sub != [] && !IsSpace(sub[0]) && !IsSpace(sub[|sub| - 1])
    requires SurroundedBySpace(s, r, a)
    ensures Includes(r, sub)
  {
    MatchInsideTrim(s, sub, j, r, a);
    IncludesAt(r, sub, j - a);
  }

  lemma MatchInsideTrim(s: string, sub: string, j: nat, r: string, a: nat)
    requires MatchAt(s, sub, j) && sub != [] && !IsSpace(sub[0]) && !IsSpace(sub[|sub| - 1])
    requires SurroundedBySpace(s, r, a)
    ensures a <= j && MatchAt(r, sub, j - a)
  {
    var e := j + |sub| - 1;
    assert s[j] == sub[0] by {
      assert s[j..j + |sub|][0] == s[j];
    }
    assert s[e] == sub[|sub| - 1] by {
      assert s[j..j + |sub|][|sub| - 1] == s[e];
    }
    assert a <= j;
    assert e < a + |r|;
    assert j + |sub| <= a + |r|;
    var u := r[j - a..j - a + |sub|];
    forall i | 0 <= i < |sub| ensures u[i] == sub[i] {
      assert u[i] == r[j - a + i] == s[a..a + |r|][j - a + i] == s[j + i];
      assert s[j + i] == s[j..j + |sub|][i];
    }
  }

  /** An occurrence of an occurrence is an occurrence. */
  lemma IncludesTrans(a: string, b: string, c: string)
    requires Includes(a, b) && Includes(b, c)
    ensures Includes(a, c)
  {
    var i := IndexOf(a, b).value;
    var j := IndexOf(b, c).value;
    assert a[i + j..i + j + |c|] == a[i..i + |b|][j..j + |c|];
    IncludesAt(a, c, i + j);
  }

  /** What a prefix includes, the whole includes. */
  lemma IncludesPrefix(s: string, p: string, sub: string)
    requires StartsWith(s, p) && Includes(p, sub)
    ensures Includes(s, sub)
  {
    var j := IndexOf(p, sub).value;
    assert p == s[..|p|];
    assert s[j..j + |sub|] == p[j..j + |sub|];
    IncludesAt(s, sub, j);
  }

  lemma IncludesLength(s: string, sub: string)
    requires Includes(s, sub)
    ensures |sub| <= |s|
  {
  }

  /** Joining keeps every piece. */
  lemma {:induction false} JoinIncludes(ws: seq<string>, sep: string, k: nat)
    requires k < |ws|
    ensures Includes(Join(ws, sep), ws[k])
    decreases |ws|
  {
    if |ws| == 1 {
      IncludesAt(ws[0], ws[0], 0);
    } else if k == 0 {
      assert Join(ws, sep)[0..|ws[0]|] == ws[0];
      IncludesAt(Join(ws, sep), ws[0], 0);
    } else {
      JoinIncludes(ws[1..], sep, k - 1);
      IncludesInfix(ws[0] + sep, Join(ws[1..], sep), "", ws[k]);
      assert ws[0] + sep + Join(ws[1..], sep) + "" == Join(ws, sep);
    }
  }

  /**
    `lines.slice(0, limit).join('\n')`, followed by `\n... and k more` when `k`
    lines were held back.
   */
  function ListFirst(lines: seq<string>, limit: nat): (r: string)
    ensures |lines| <= limit ==> r == Join(lines, "\n")
    ensures |lines| > limit ==>
      StartsWith(r, Join(lines[..limit], "\n")) && EndsWith(r, NatToString(|lines| - limit) + " more")
  {
    if |lines| <= limit then Join(lines, "\n")
    else
      var tail := NatToString(|lines| - limit) + " more";
      var r := Join(lines[..limit], "\n") + "\n... and " + tail;
      assert r[|r| - |tail|..] == tail;
      r
  }

  /** Every line before the limit appears in the listing. */
  lemma ListFirstShows(lines: seq<string>, limit: nat, k: nat)
    requires k < |lines| && k < limit
    ensures Includes(ListFirst(lines, limit), lines[k])
  {
    if |lines| <= limit {
      JoinIncludes(lines, "\n", k);
    } else {
      JoinIncludes(lines[..limit], "\n", k);
      IncludesPrefix(ListFirst(lines, limit), Join(lines[..limit], "\n"), lines[k]);
    }
  }

  /** `s.replace(pat, rep)` with a string pattern: only the first occurrence is replaced. */
  function ReplaceFirst(s: string, pat: string, rep: string): string
  {
    match IndexOf(s, pat)
    case None => s
    case Some(i) => s[..i] + rep + s[i + |pat|..]
  }

  /** `s.split(c)[0]`: the part of `s` before the first `c`, or all of `s`. */
  function HeadBefore(s: string, c: char): (r: string)
    ensures StartsWith(s, r)
    ensures c !in r
    ensures |r| < |s| ==> s[|r|] == c
  {
    if |s| == 0 || s[0] == c then [] else [s[0]] + HeadBefore(s[1..], c)
  }

  /** The head of `a`, the separator and anything after it is `a` itself. */
  lemma HeadBeforeSeparator(a: string, c: char, b: string)
    requires c !in a
    ensures HeadBefore(a + [c] + b, c) == a
  {
    var s := a + [c] + b;
    var r := HeadBefore(s, c);
    assert s[|a|] == c;
    assert forall i :: 0 <= i < |a| ==> s[i] == a[i];
    assert |r| == |a|;
    assert r == s[..|a|];
  }

  /** `s.split(c)`: the pieces between occurrences of `c`, empty pieces kept; never an empty list. */
  function SplitOn(s: string, c: char): (ps: seq<string>)
    ensures |ps| >= 1 && ps[0] == HeadBefore(s, c)
    ensures forall k :: 0 <= k < |ps| ==> c !in ps[k]
  {
    if s == [] then [""]
    else if s[0] == c then [""] + SplitOn(s[1..], c)
    else
      var r := SplitOn(s[1..], c);
      [[s[0]] + r[0]] + r[1..]
  }

  /** Text without the separator is a single piece. */
  lemma {:induction false} SplitOnFree(x: string, c: char)
    requires c !in x
    ensures SplitOn(x, c) == [x]
  {
    if x != [] {
      assert c !in x[1..];
      SplitOnFree(x[1..], c);
      assert [x[0]] + x[1..] == x;
    }
  }

  /** A separator ends the first piece; splitting carries on after it. */
  lemma {:induction false} SplitOnSeparator(x: string, c: char, y: string)
    requires c !in x
    ensures SplitOn(x + [c] + y, c) == [x] + SplitOn(y, c)
  {
    var s := x + [c] + y;
    if x == [] {
      assert s[1..] == y;
    } else {
      assert s[1..] == x[1..] + [c] + y;
      assert c !in x[1..];
      SplitOnSeparator(x[1..], c, y);
      assert [x[0]] + x[1..] == x;
    }
  }

  /** Splitting undoes joining when no piece holds the separator. */
  lemma {:induction false} SplitOnJoin(ls: seq<string>, c: char)
    requires |ls| >= 1
    requires forall k :: 0 <= k < |ls| ==> c !in ls[k]
    ensures SplitOn(Join(ls, [c]), c) == ls
    decreases |ls|
  {
    if |ls| == 1 {
      SplitOnFree(ls[0], c);
    } else {
      assert c !in ls[0];
      SplitOnSeparator(ls[0], c, Join(ls[1..], [c]));
      SplitOnJoin(ls[1..], c);
      assert [ls[0]] + ls[1..] == ls;
    }
  }

  // ---------------------------------------------------------------- case

  function LowerChar(c: char): char {
    if 'A' <= c <= 'Z' then (c as int + 32) as char else c
  }

  /** `toLowerCase()` on the ASCII letters. */
  function ToLower(s: string): (r: string)
    ensures |r| == |s|
    ensures forall i :: 0 <= i < |s| ==> r[i] == LowerChar(s[i])
  {
    seq(|s|, i requires 0 <= i < |s| => LowerChar(s[i]))
  }

  function UpperChar(c: char): char {
    if 'a' <= c <= 'z' then (c as int - 32) as char else c
  }

  lemma LowerKeepsSpace(c: char)
    ensures IsSpace(LowerChar(c)) == IsSpace(c)
  {
  }

  lemma {:induction false} TrimStartLower(s: string)
    ensures TrimStart(ToLower(s)) == ToLower(TrimStart(s))
    decreases |s|
  {
    if |s| > 0 {
      var l := ToLower(s);
      LowerKeepsSpace(s[0]);
      if IsSpace(s[0]) {
        calc {
          TrimStart(l);
          { assert IsSpace(l[0]); }
          TrimStart(l[1..]);
          { assert l[1..] == ToLower(s[1..]); }
          TrimStart(ToLower(s[1..]));
          { TrimStartLower(s[1..]); }
          ToLower(TrimStart(s[1..]));
          ToLower(TrimStart(s));
        }
      } else {
        assert !IsSpace(l[0]);
      }
    }
  }

  lemma {:induction false} TrimEndLower(s: string)
    ensures TrimEnd(ToLower(s)) == ToLower(TrimEnd(s))
    decreases |s|
  {
    if |s| > 0 {
      var n := |s| - 1;
      LowerKeepsSpace(s[n]);
      if IsSpace(s[n]) {
        TrimEndLower(s[..n]);
        TrimEndLowerStep(s);
      } else {
        assert !IsSpace(ToLower(s)[n]);
      }
    }
  }

  /** One trailing space: lower-casing commutes with trimming `s` if it does for `s` without it. */
  lemma TrimEndLowerStep(s: string)
    requires |s| > 0 && IsSpace(s[|s| - 1])
    requires TrimEnd(ToLower(s[..|s| - 1])) == ToLower(TrimEnd(s[..|s| - 1]))
    ensures TrimEnd(ToLower(s)) == ToLower(TrimEnd(s))
  {
    var l := ToLower(s);
    var n := |s| - 1;
    LowerKeepsSpace(s[n]);
    calc {
      TrimEnd(l);
      { TrimEndDrop(l); }
      TrimEnd(l[..n]);
      { LowerPrefix(s, n); }
      TrimEnd(ToLower(s[..n]));
      ToLower(TrimEnd(s[..n]));
      { TrimEndDrop(s); }
      ToLower(TrimEnd(s));
    }
  }

  /** Trailing whitespace is dropped one character at a time. */
  lemma TrimEndDrop(s: string)
    requires |s| > 0 && IsSpace(s[|s| - 1])
    ensures TrimEnd(s) == TrimEnd(s[..|s| - 1])
  {
  }

  lemma LowerPrefix(s: string, n: nat)
    requires n <= |s|
    ensures ToLower(s)[..n] == ToLower(s[..n])
  {
  }

  /** ASCII lowercasing leaves whitespace alone, so it commutes with trimming. */
  lemma TrimLower(s: string)
    ensures Trim(ToLower(s)) == ToLower(Trim(s))
  {
    TrimStartLower(s);
    TrimEndLower(TrimStart(s));
  }

  /** `toUpperCase()` on the ASCII letters. */
  function ToUpper(s: string): (r: string)
    ensures |r| == |s|
    ensures forall i :: 0 <= i < |s| ==> r[i] == UpperChar(s[i])
  {
    seq(|s|, i requires 0 <= i < |s| => UpperChar(s[i]))
  }

  // ---------------------------------------------------------------- split / join

  /** The first whitespace position at or after `k`, or `|s|`. */
  function SpaceFrom(s: string, k: nat): (r: nat)
    requires k <= |s|
    ensures k <= r <= |s|
    ensures NoSpace(s[k..r])
    ensures r < |s| ==> IsSpace(s[r])
    decreases |s| - k
  {
    if k == |s| || IsSpace(s[k]) then k
    else
      var r := SpaceFrom(s, k + 1);
      assert s[k..r] == [s[k]] + s[k + 1..r];
      r
  }

  /** The first non-whitespace position at or after `k`, or `|s|`. */
  function SpaceRunEnd(s: string, k: nat): (r: nat)
    requires k <= |s|
    ensures k <= r <= |s|
    ensures AllSpace(s[k..r])
    ensures r < |s| ==> !IsSpace(s[r])
    decreases |s| - k
  {
    if k == |s| || !IsSpace(s[k]) then k
    else
      var r := SpaceRunEnd(s, k + 1);
      assert s[k..r] == [s[k]] + s[k + 1..r];
      r
  }

  /**
    `s.split(/\s+/)`: the pieces between maximal whitespace runs, keeping the
    empty piece before a leading run and after a trailing one (`"".split` is `[""]`).
   */
  function SplitWs(s: string): (r: seq<string>)
    ensures |r| >= 1
    ensures forall t :: t in r ==> NoSpace(t)
    decreases |s|
  {
    var i := SpaceFrom(s, 0);
    if i == |s| then
      assert s[0..i] == s;
      [s]
    else
      var j := SpaceRunEnd(s, i);
      assert s[0..i] == s[..i];
      [s[..i]] + SplitWs(s[j..])
  }

  /** `ws.join(sep)` */
  function Join(ws: seq<string>, sep: string): string
  {
    if |ws| == 0 then ""
    else if |ws| == 1 then ws[0]
    else ws[0] + sep + Join(ws[1..], sep)
  }

  lemma {:induction false} JoinStartsWithFirst(ws: seq<string>, sep: string)
    requires |ws| >= 1
    ensures StartsWith(Join(ws, sep), ws[0])
  {
  }

  lemma {:induction false} JoinEndsWithLast(ws: seq<string>, sep: string)
    requires |ws| >= 1
    ensures EndsWith(Join(ws, sep), ws[|ws| - 1])
    decreases |ws|
  {
    if |ws| > 1 {
      JoinEndsWithLast(ws[1..], sep);
      var s := Join(ws, sep);
      var t := Join(ws[1..], sep);
      assert s == ws[0] + sep + t;
      assert s[|s| - |t|..] == t;
      assert ws[1..][|ws| - 2] == ws[|ws| - 1];
    }
  }

  /** Words free of whitespace, none empty: the shape `split(/\s+/)` produces from trimmed text. */
  predicate Words(ws: seq<string>) {
    forall k :: 0 <= k < |ws| ==> ws[k] != [] && NoSpace(ws[k])
  }

  /** Splitting undoes joining with single spaces. */
  lemma {:induction false} SplitJoin(ws: seq<string>)
    requires |ws| >= 1 && Words(ws)
    ensures SplitWs(Join(ws, " ")) == ws
    decreases |ws|
  {
    var s := Join(ws, " ");
    var w := ws[0];
    if |ws| == 1 {
      assert s == w;
    } else {
      var rest := Join(ws[1..], " ");
      assert s == w + " " + rest;
      JoinStartsWithFirst(ws[1..], " ");
      assert rest[0] == ws[1][0];
      var i := SpaceFrom(s, 0);
      assert forall k :: 0 <= k < |w| ==> s[k] == w[k];
      assert s[|w|] == ' ';
      assert i == |w|;
      var j := SpaceRunEnd(s, i);
      assert s[|w| + 1] == rest[0];
      assert j == |w| + 1;
      assert s[..i] == w;
      assert s[j..] == rest;
      SplitJoin(ws[1..]);
      assert SplitWs(s) == [w] + ws[1..];
    }
  }

  /** Text with no whitespace at its start yields a non-empty first piece, unless it is empty. */
  lemma FirstPieceOfTrimmed(s: string)
    requires Trimmed(s)
    ensures SplitWs(s)[0] == [] <==> s == []
  {
    if s != [] {
      assert SpaceFrom(s, 0) > 0;
    }
  }

  // ---------------------------------------------------------------- length

  /** `s.length`: characters outside the Basic Multilingual Plane count twice. */
  function Utf16Length(s: string): (n: nat)
    ensures |s| <= n <= 2 * |s|
  {
    if |s| == 0 then 0
    else Utf16Length(s[..|s| - 1]) + (if s[|s| - 1] as int > 0xFFFF then 2 else 1)
  }

  /**
    The longest prefix of `s` that fits in `n` UTF-16 code units: `substring(0, n)`
    for text whose cut does not fall inside a surrogate pair.
   */
  function Utf16Take(s: string, n: nat): (r: string)
    ensures StartsWith(s, r) && Utf16Length(r) <= n
    ensures Utf16Length(s) <= n <==> r == s
    ensures |r| < |s| ==> Utf16Length(s[..|r| + 1]) > n
    decreases |s|
  {
    if Utf16Length(s) <= n then s
    else
      var r := Utf16Take(s[..|s| - 1], n);
      assert r != s[..|s| - 1] ==> s[..|s| - 1][..|r| + 1] == s[..|r| + 1];
      assert r == s[..|s| - 1] ==> s[..|r| + 1] == s;
      r
  }

  // ---------------------------------------------------------------- numbers

  predicate IsDigit(c: char) {
    '0' <= c <= '9'
  }

  predicate AllDigits(s: string) {
    forall i :: 0 <= i < |s| ==> IsDigit(s[i])
  }

  function DigitChar(d: nat): (c: char)
    requires d < 10
    ensures IsDigit(c)
  {
    ('0' as int + d) as char
  }

  function DigitsValue(s: string): nat
    requires AllDigits(s)
  {
    if |s| == 0 then 0
    else DigitsValue(s[..|s| - 1]) * 10 + (s[|s| - 1] as int - '0' as int)
  }

  /** `${n}` for a non-negative integer. */
  function NatToString(n: nat): (s: string)
    ensures |s| >= 1 && AllDigits(s)
  {
    if n < 10 then [DigitChar(n)] else NatToString(n / 10) + [DigitChar(n % 10)]
  }

  /** `${n}` for any integer: a '-' before the digits of a negative value. */
  function IntToString(n: int): (s: string)
    ensures n >= 0 ==> s == NatToString(n)
    ensures n < 0 ==> s == "-" + NatToString(-n)
  {
    if n >= 0 then NatToString(n) else "-" + NatToString(-n)
  }

  lemma {:induction false} NatToStringValue(n: nat)
    ensures DigitsValue(NatToString(n)) == n
  {
    if n >= 10 {
      var s := NatToString(n);
      assert s[..|s| - 1] == NatToString(n / 10);
      NatToStringValue(n / 10);
    }
  }

  /** The longest prefix of `s` made of decimal digits. */
  function LeadingDigits(s: string): (r: string)
    ensures StartsWith(s, r) && AllDigits(r)
    ensures |r| < |s| ==> !IsDigit(s[|r|])
  {
    if |s| == 0 || !IsDigit(s[0]) then [] else [s[0]] + LeadingDigits(s[1..])
  }

  /**
    `parseInt(s)` in base ten: leading whitespace, an optional sign, then the
    longest run of digits; `None` stands for `NaN`.
   */
  function ParseInt(s: string): (r: Option<int>)
    ensures r.Some? ==> exists t :: t != [] && AllDigits(t) && Includes(s, t)
  {
    var t := TrimStart(s);
    var neg := |t| > 0 && t[0] == '-';
    var rest := if |t| > 0 && (t[0] == '-' || t[0] == '+') then t[1..] else t;
    var ds := LeadingDigits(rest);
    if ds == [] then None
    else
      assert rest == s[|s| - |rest|..] by {
        if rest != t { assert t[1..] == s[|s| - |t| + 1..]; }
      }
      DigitsInside(s, rest, ds);
      var v: int := if neg then -(DigitsValue(ds) as int) else DigitsValue(ds);
      Some(v)
  }

  /** A run of digits opening a suffix of `s` is a run of digits inside `s`. */
  lemma DigitsInside(s: string, rest: string, ds: string)
    requires |rest| <= |s| && rest == s[|s| - |rest|..] && StartsWith(rest, ds)
    requires ds != [] && AllDigits(ds)
    ensures exists t :: t != [] && AllDigits(t) && Includes(s, t)
  {
    assert s[|s| - |rest|..|s| - |rest| + |ds|] == rest[..|ds|];
    IncludesAt(s, ds, |s| - |rest|);
  }

  /** Decimal printing and `parseInt` are inverse on the naturals. */
  lemma ParseIntOfNatToString(n: nat)
    ensures ParseInt(NatToString(n)) == Some(n)
  {
    var s := NatToString(n);
    assert TrimStart(s) == s by {
      if |s| > 0 { assert !IsSpace(s[0]); }
    }
    assert LeadingDigits(s) == s by {
      LeadingDigitsOfDigits(s);
    }
    NatToStringValue(n);
  }

  lemma {:induction false} LeadingDigitsOfDigits(s: string)
    requires AllDigits(s)
    ensures LeadingDigits(s) == s
    decreases |s|
  {
    if |s| > 0 {
      LeadingDigitsOfDigits(s[1..]);
    }
  }
}
