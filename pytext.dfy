/**
 * The parts of Python's `str` behaviour the core relies on, written out on
 * `seq<char>`: `isspace`, `strip`, `split()` without arguments,
 * `startswith`/`endswith`/`in`, `join`, `str(int)`, `int(str)` and
 * `replace`.
 */
module PyText {
  import opened Wrappers

  /** The characters for which Python's `str.isspace()` holds. */
  predicate IsSpace(c: char)
  {
    c == ' ' || c == '\t' || c == '\n' || c == '\r' || c == '\U{0B}' || c == '\U{0C}'
    || ('\U{1C}' <= c <= '\U{1F}') || c == '\U{85}' || c == '\U{A0}' || c == '\U{1680}'
    || ('\U{2000}' <= c <= '\U{200A}') || c == '\U{2028}' || c == '\U{2029}'
    || c == '\U{202F}' || c == '\U{205F}' || c == '\U{3000}'
  }

  predicate NoSpace(s: string)
  {
    forall i :: 0 <= i < |s| ==> !IsSpace(s[i])
  }

  /** Python's `s.lstrip()`. */
  function LStrip(s: string): (r: string)
    ensures |r| <= |s| && r == s[|s| - |r|..]
    ensures r != [] ==> !IsSpace(r[0])
    ensures forall i :: 0 <= i < |s| - |r| ==> IsSpace(s[i])
  {
    if s != [] && IsSpace(s[0]) then LStrip(s[1..]) else s
  }

  /** Python's `s.rstrip()`. */
  function RStrip(s: string): (r: string)
    ensures |r| <= |s| && r == s[..|r|]
    ensures r != [] ==> !IsSpace(r[|r| - 1])
    ensures forall i :: |r| <= i < |s| ==> IsSpace(s[i])
  {
    if s != [] && IsSpace(s[|s| - 1]) then RStrip(s[..|s| - 1]) else s
  }

  /** Python's `s.strip()`. */
  function Strip(s: string): string
  {
    RStrip(LStrip(s))
  }

  /** The longest prefix of `s` holding no whitespace. */
  function Word(s: string): (w: string)
    ensures |w| <= |s| && w == s[..|w|] && NoSpace(w)
    ensures |w| < |s| ==> IsSpace(s[|w|])
  {
    if s == [] || IsSpace(s[0]) then [] else [s[0]] + Word(s[1..])
  }

  /** Python's `s.split()`: the maximal whitespace-free runs, in order. */
  function Split(s: string): (ws: seq<string>)
    ensures forall k :: 0 <= k < |ws| ==> ws[k] != [] && NoSpace(ws[k])
    decreases |s|
  {
    var t := LStrip(s);
    if t == [] then [] else
      var w := Word(t);
      var rest := Split(t[|w|..]);
      WordsCons(w, rest);
      [w] + rest
  }

  lemma WordsCons(w: string, rest: seq<string>)
    requires w != [] && NoSpace(w)
    requires forall k :: 0 <= k < |rest| ==> rest[k] != [] && NoSpace(rest[k])
    ensures forall k :: 0 <= k < |[w] + rest| ==> ([w] + rest)[k] != [] && NoSpace(([w] + rest)[k])
  {
  }

  /** Python's `sep.join(ws)`. */
  function Join(ws: seq<string>, sep: string): string
  {
    if ws == [] then [] else if |ws| == 1 then ws[0] else ws[0] + sep + Join(ws[1..], sep)
  }

  predicate StartsWith(s: string, p: string)
  {
    |p| <= |s| && s[..|p|] == p
  }

  predicate EndsWith(s: string, p: string)
  {
    |p| <= |s| && s[|s| - |p|..] == p
  }

  /** The first index at which `p` occurs in `s` (Python's `s.find(p)`). */
  function Find(s: string, p: string): (r: Option<nat>)
    ensures r.Some? ==> r.value + |p| <= |s| && s[r.value..r.value + |p|] == p
    ensures r.Some? ==> forall j :: 0 <= j < r.value ==> s[j..] == [] || !StartsWith(s[j..], p)
    ensures r.None? ==> forall j :: 0 <= j <= |s| ==> !StartsWith(s[j..], p)
    decreases |s|
  {
    if StartsWith(s, p) then Some(0)
    else if s == [] then None
    else
      TailSuffixes(s);
      match Find(s[1..], p)
      case None => None
      case Some(k) => Some(k + 1)
  }

  /** The suffixes of a non-empty string past its first character are the suffixes of its tail. */
  lemma TailSuffixes(s: string)
    requires s != []
    ensures forall j :: 1 <= j <= |s| ==> s[j..] == s[1..][j - 1..]
  {
  }

  /** Python's `p in s` for strings. */
  predicate Contains(s: string, p: string)
  {
    Find(s, p).Some?
  }

  /** Python's `s.replace(p, r, 1)`. */
  function ReplaceFirst(s: string, p: string, r: string): string
  {
    match Find(s, p)
    case Some(k) => s[..k] + r + s[k + |p|..]
    case None => s
  }

  /** Python's `s.replace(p, r)` for a non-empty pattern `p`. */
  function ReplaceAll(s: string, p: string, r: string): string
    requires p != []
    decreases |s|
  {
    match Find(s, p)
    case Some(k) => s[..k] + r + ReplaceAll(s[k + |p|..], p, r)
    case None => s
  }

  predicate IsDigit(c: char)
  {
    '0' <= c <= '9'
  }

  function DigitChar(d: nat): (c: char)
    requires d < 10
    ensures IsDigit(c)
  {
    ['0', '1', '2', '3', '4', '5', '6', '7', '8', '9'][d]
  }

  function DigitValue(c: char): (d: nat)
    requires IsDigit(c)
    ensures d < 10
  {
    (c as int - '0' as int) as nat
  }

  predicate AllDigits(s: string)
  {
    forall i :: 0 <= i < |s| ==> IsDigit(s[i])
  }

  /** The value of a string of decimal digits. */
  function DigitsValue(s: string): nat
    requires AllDigits(s)
  {
    if s == [] then 0 else 10 * DigitsValue(s[..|s| - 1]) + DigitValue(s[|s| - 1])
  }

  /** Python's `str(n)` for a non-negative integer. */
  function NatToString(n: nat): (s: string)
    ensures s != [] && AllDigits(s)
  {
    if n < 10 then [DigitChar(n)] else NatToString(n / 10) + [DigitChar(n % 10)]
  }

  /** Python's `str(i)`. */
  function IntToString(i: int): string
  {
    if i < 0 then "-" + NatToString(-i) else NatToString(i)
  }

  /**
   * The value of a digit group as Python's `int()` accepts it: decimal
   * digits, with single underscores allowed between two digits; `None` for
   * anything else.
   */
  function DigitGroupValue(s: string): Option<nat>
  {
    if s == [] || !IsDigit(s[|s| - 1]) then None
    else if |s| == 1 then Some(DigitValue(s[0]))
    else
      var init := s[..|s| - 1];
      var rest := if init[|init| - 1] == '_' then init[..|init| - 1] else init;
      match DigitGroupValue(rest)
      case None => None
      case Some(v) => Some(10 * v + DigitValue(s[|s| - 1]))
  }

  /**
   * Python's `int(s)` on a whitespace-free token: an optional sign, then a
   * digit group; `None` stands for the `ValueError` it raises otherwise.
   */
  function ParseInt(s: string): Option<int>
  {
    var neg := s != [] && s[0] == '-';
    var body := if s != [] && (s[0] == '-' || s[0] == '+') then s[1..] else s;
    match DigitGroupValue(body)
    case None => None
    case Some(v) => Some(if neg then -(v as int) else v as int)
  }

  /** ASCII lower-casing, used for case-insensitive matching. */
  function Lower(c: char): char
  {
    if 'A' <= c <= 'Z' then (c as int + 32) as char else c
  }

  predicate IsAsciiLetter(c: char)
  {
    ('A' <= c <= 'Z') || ('a' <= c <= 'z')
  }

  // ---------------------------------------------------------------------
  // Lemmas
  // ---------------------------------------------------------------------

  lemma {:induction false} DigitsValueOfNatToString(n: nat)
    ensures DigitsValue(NatToString(n)) == n
  {
    if n >= 10 {
      var s := NatToString(n);
      DigitsValueOfNatToString(n / 10);
      assert s[..|s| - 1] == NatToString(n / 10);
      assert DigitValue(DigitChar(n % 10)) == n % 10;
    } else {
      assert DigitValue(DigitChar(n)) == n;
    }
  }

  lemma {:induction false} DigitGroupValueOfDigits(s: string)
    requires s != [] && AllDigits(s)
    ensures DigitGroupValue(s) == Some(DigitsValue(s))
  {
    if |s| > 1 {
      var init := s[..|s| - 1];
      assert IsDigit(init[|init| - 1]);
      DigitGroupValueOfDigits(init);
    }
  }

  lemma {:induction false} DigitGroupValueHead(s: string)
    requires DigitGroupValue(s).Some?
    ensures s != [] && IsDigit(s[0])
  {
    if |s| > 1 {
      var init := s[..|s| - 1];
      var rest := if init[|init| - 1] == '_' then init[..|init| - 1] else init;
      DigitGroupValueHead(rest);
      assert s[0] == rest[0];
    }
  }

  lemma ParseIntOfSignedDigits(s: string, d: string, neg: bool)
    requires d != [] && AllDigits(d)
    requires s == if neg then ['-'] + d else d
    ensures ParseInt(s) == Some(if neg then -(DigitsValue(d) as int) else DigitsValue(d) as int)
  {
    var body := if s != [] && (s[0] == '-' || s[0] == '+') then s[1..] else s;
    if neg {
      assert s[1..] == d;
    } else {
      assert IsDigit(d[0]);
    }
    assert body == d;
    DigitGroupValueOfDigits(d);
  }

  /** `int(str(i)) == i` for every integer. */
  lemma ParseIntOfIntToString(i: int)
    ensures ParseInt(IntToString(i)) == Some(i)
  {
    var n: nat := if i < 0 then -i else i;
    DigitsValueOfNatToString(n);
    ParseIntOfSignedDigits(IntToString(i), NatToString(n), i < 0);
  }

  lemma {:induction false} WordOfWordThenSpace(w: string, rest: string)
    requires NoSpace(w)
    requires rest == [] || IsSpace(rest[0])
    ensures Word(w + rest) == w
  {
    if w != [] {
      assert (w + rest)[1..] == w[1..] + rest;
      WordOfWordThenSpace(w[1..], rest);
    } else {
      assert w + rest == rest;
    }
  }

  lemma LStripOfNonSpaceStart(s: string)
    requires s != [] && !IsSpace(s[0])
    ensures LStrip(s) == s
  {
  }

  lemma {:induction false} LStripOfSpaceThen(s: string, t: string)
    requires s != [] && IsSpace(s[0])
    requires t == [] || !IsSpace(t[0])
    requires s == [s[0]] + t
    ensures LStrip(s) == t
  {
    assert s[1..] == t;
    if t != [] {
      LStripOfNonSpaceStart(t);
    }
  }

  /** Splitting words joined by single spaces gives the words back. */
  lemma {:induction false} SplitJoinSpace(ws: seq<string>)
    requires forall k :: 0 <= k < |ws| ==> ws[k] != [] && NoSpace(ws[k])
    ensures Split(Join(ws, " ")) == ws
  {
    if ws == [] {
    } else if |ws| == 1 {
      assert ws[0] + [] == ws[0];
      SplitWordThen(ws[0], []);
    } else {
      var rest := ws[1..];
      assert forall k :: 0 <= k < |rest| ==> rest[k] != [] && NoSpace(rest[k]) by {
        forall k | 0 <= k < |rest|
          ensures rest[k] != [] && NoSpace(rest[k])
        {
          assert rest[k] == ws[k + 1];
        }
      }
      SplitJoinSpace(rest);
      assert Join(ws, " ") == ws[0] + " " + Join(rest, " ");
      SplitJoinCons(ws[0], rest);
      ConsTail(ws);
    }
  }

  /** A word, a space and joined words whose split is known split into the word and those words. */
  lemma SplitJoinCons(w: string, rest: seq<string>)
    requires w != [] && NoSpace(w) && rest != [] && rest[0] != [] && NoSpace(rest[0])
    requires Split(Join(rest, " ")) == rest
    ensures Split(w + " " + Join(rest, " ")) == [w] + rest
  {
    var tail := Join(rest, " ");
    var spaced := " " + tail;
    ConcatAssoc(w, " ", tail);
    JoinStartsWithFirst(rest, " ");
    assert !IsSpace(tail[0]);
    calc {
      Split(w + spaced);
      { SplitWordThen(w, spaced); }
      [w] + Split(spaced);
      { SplitLeadingSpace(tail); }
      [w] + Split(tail);
    }
  }

  lemma ConcatAssoc<T>(a: seq<T>, b: seq<T>, c: seq<T>)
    ensures a + b + c == a + (b + c)
  {
  }

  lemma ConsTail<T>(s: seq<T>)
    requires s != []
    ensures s == [s[0]] + s[1..]
  {
  }

  /** A word followed by nothing or by whitespace splits off as the first word. */
  lemma SplitWordThen(w: string, rest: string)
    requires w != [] && NoSpace(w) && (rest == [] || IsSpace(rest[0]))
    ensures Split(w + rest) == [w] + Split(rest)
  {
    LStripOfNonSpaceStart(w + rest);
    WordOfWordThenSpace(w, rest);
    assert (w + rest)[|w|..] == rest;
  }

  /** One leading space does not change the split of a string that starts with a non-space. */
  lemma SplitLeadingSpace(tail: string)
    requires tail == [] || !IsSpace(tail[0])
    ensures Split(" " + tail) == Split(tail)
  {
    LStripOfSpaceThen(" " + tail, tail);
    if tail != [] {
      LStripOfNonSpaceStart(tail);
    }
  }

  lemma {:induction false} JoinStartsWithFirst(ws: seq<string>, sep: string)
    requires |ws| > 0 && ws[0] != []
    ensures Join(ws, sep) != [] && Join(ws, sep)[0] == ws[0][0]
  {
  }

  /** Stripping words joined by single spaces, followed by a newline, gives the joined words. */
  lemma StripJoinNewline(ws: seq<string>)
    requires |ws| > 0
    requires forall k :: 0 <= k < |ws| ==> ws[k] != [] && NoSpace(ws[k])
    ensures Strip(Join(ws, " ") + "\n") == Join(ws, " ")
  {
    var j := Join(ws, " ");
    JoinStartsWithFirst(ws, " ");
    JoinEndsWithLast(ws, " ");
    LStripOfNonSpaceStart(j + "\n");
    assert (j + "\n")[..|j|] == j;
  }

  lemma {:induction false} JoinEndsWithLast(ws: seq<string>, sep: string)
    requires |ws| > 0 && ws[|ws| - 1] != []
    ensures Join(ws, sep) != [] && Join(ws, sep)[|Join(ws, sep)| - 1] == ws[|ws| - 1][|ws[|ws| - 1]| - 1]
  {
    if |ws| > 1 {
      JoinEndsWithLast(ws[1..], sep);
    }
  }

  /** Joining one more piece puts a separator between the old join and the piece. */
  lemma {:induction false} JoinSnoc(ws: seq<string>, w: string, sep: string)
    requires |ws| > 0
    ensures Join(ws + [w], sep) == Join(ws, sep) + sep + w
  {
    if |ws| > 1 {
      assert (ws + [w])[1..] == ws[1..] + [w];
      JoinSnoc(ws[1..], w, sep);
    }
  }

  lemma RStripOfNonSpaceEnd(s: string)
    requires s != [] && !IsSpace(s[|s| - 1])
    ensures RStrip(s) == s
  {
  }

  /** No occurrence of `q` starts anywhere in `s`. */
  predicate Absent(s: string, q: string)
  {
    forall j :: 0 <= j <= |s| ==> !StartsWith(s[j..], q)
  }

  lemma ContainsIffNotAbsent(s: string, q: string)
    ensures Contains(s, q) <==> !Absent(s, q)
  {
    var r := Find(s, q);
    if r.Some? {
      assert s[r.value..][..|q|] == s[r.value..r.value + |q|];
    }
  }

  /** No character of `r` occurs in `q`. */
  predicate Disjoint(r: string, q: string)
  {
    forall i, j :: 0 <= i < |r| && 0 <= j < |q| ==> r[i] != q[j]
  }

  /** An occurrence of `q` in `a + r + b` lies inside `a`, inside `b`, or overlaps `r`, which shares no character with `q`. */
  lemma AbsentAround(a: string, r: string, b: string, q: string)
    requires r != [] && q != [] && Disjoint(r, q) && Absent(b, q)
    requires forall j :: 0 <= j && j + |q| <= |a| ==> !StartsWith(a[j..], q)
    ensures Absent(a + r + b, q)
  {
    var t := a + r + b;
    var k := |a|;
    forall j | 0 <= j <= |t|
      ensures !StartsWith(t[j..], q)
    {
      if j + |q| <= |t| {
        if j + |q| <= k {
          assert t[j..][..|q|] == a[j..][..|q|];
        } else if j >= k + |r| {
          assert t[j..] == b[j - k - |r|..];
        } else {
          var m := if j < k then k else j;
          assert t[j..][..|q|][m - j] == r[m - k];
          assert r[m - k] != q[m - j];
        }
      }
    }
  }

  /** A suffix of a string without `q` is without `q`. */
  lemma AbsentSuffix(s: string, k: nat, q: string)
    requires k <= |s| && Absent(s, q)
    ensures Absent(s[k..], q)
  {
    forall j | 0 <= j <= |s| - k
      ensures !StartsWith(s[k..][j..], q)
    {
      assert s[k..][j..] == s[k + j..];
    }
  }

  /** No occurrence of `q` starting before `k` means none inside the prefix `s[..k]`. */
  lemma PrefixWithout(s: string, k: nat, q: string)
    requires k <= |s| && q != []
    requires forall j :: 0 <= j < k ==> s[j..] == [] || !StartsWith(s[j..], q)
    ensures forall j :: 0 <= j && j + |q| <= k ==> !StartsWith(s[..k][j..], q)
  {
    forall j | 0 <= j && j + |q| <= k
      ensures !StartsWith(s[..k][j..], q)
    {
      assert s[..k][j..][..|q|] == s[j..][..|q|];
      assert s[j..] != [];
    }
  }

  /**
   * Replacing every `p` by a non-empty `r` none of whose characters is in
   * `q` leaves no occurrence of `q`, provided `q` is the replaced pattern
   * itself or was absent to begin with.
   */
  lemma {:induction false} ReplaceAllLeavesAbsent(s: string, p: string, r: string, q: string)
    requires p != [] && r != [] && q != [] && Disjoint(r, q)
    requires q == p || Absent(s, q)
    ensures Absent(ReplaceAll(s, p, r), q)
    decreases |s|
  {
    match Find(s, p) {
      case None =>
      case Some(k) =>
        var rest := s[k + |p|..];
        if q != p {
          AbsentSuffix(s, k + |p|, q);
        }
        ReplaceAllLeavesAbsent(rest, p, r, q);
        var b := ReplaceAll(rest, p, r);
        assert ReplaceAll(s, p, r) == s[..k] + r + b;
        PrefixWithout(s, k, q);
        AbsentAround(s[..k], r, b, q);
    }
  }

  /** A string `int()` accepts begins with a sign or a digit. */
  lemma ParseIntHead(s: string)
    requires ParseInt(s).Some?
    ensures s != [] && (s[0] == '-' || s[0] == '+' || IsDigit(s[0]))
  {
    var body := if s != [] && (s[0] == '-' || s[0] == '+') then s[1..] else s;
    DigitGroupValueHead(body);
  }

  /** A stripped, non-empty line splits into at least one field, the first being its first word. */
  lemma SplitOfStripped(line: string)
    requires Strip(line) != []
    ensures Split(Strip(line)) != [] && Split(Strip(line))[0] == Word(Strip(line))
  {
    var s := Strip(line);
    assert !IsSpace(s[0]);
    LStripOfNonSpaceStart(s);
  }

  /** Replacing the first occurrence of `t` by `t + u` inserts `u` right after it. */
  lemma ReplaceFirstAppends(s: string, t: string, u: string)
    requires Find(s, t).Some?
    ensures var k := Find(s, t).value + |t|;
      ReplaceFirst(s, t, t + u) == s[..k] + u + s[k..]
  {
    ReplaceFirstAt(s, t, t + u, Find(s, t).value);
    InsertAfter(s, Find(s, t).value, Find(s, t).value + |t|, t, u);
  }

  /** Replacing the first occurrence, found at `i`. */
  lemma ReplaceFirstAt(s: string, t: string, r: string, i: nat)
    requires Find(s, t) == Some(i)
    ensures i + |t| <= |s| && s[i..i + |t|] == t
    ensures ReplaceFirst(s, t, r) == s[..i] + r + s[i + |t|..]
  {
  }

  lemma InsertAfter<T>(s: seq<T>, i: nat, k: nat, t: seq<T>, u: seq<T>)
    requires i <= k <= |s| && s[i..k] == t
    ensures s[..i] + (t + u) + s[k..] == s[..k] + u + s[k..]
  {
    assert s[..k] == s[..i] + t;
  }
}
