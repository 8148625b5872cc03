/** The Python string built-ins the ingestion client relies on: the
    substring test `p in s`, `s.split(' ')`, `int(token)` on a byte string,
    and the character filter applied to NETWORK lines. */
module Text {
  import opened Outcomes

  // ---------------------------------------------------------------------
  // Substring test
  // ---------------------------------------------------------------------

  /** `p` occurs in `s` starting at index `i`. */
  ghost predicate OccursAt(s: string, p: string, i: int) {
    0 <= i && i + |p| <= |s| && s[i..i + |p|] == p
  }

  /** Python's `p in s`: true exactly when `p` occurs somewhere in `s`. */
  function Contains(s: string, p: string): (b: bool)
    ensures b <==> exists i :: OccursAt(s, p, i)
    decreases |s|
  {
    if |p| > |s| then false
    else if s[..|p|] == p then
      assert OccursAt(s, p, 0);
      true
    else
      var b := Contains(s[1..], p);
      OccursShift(s, p);
      b
  }

  /** Occurrences of `p` in `s` that do not start at 0 are exactly the
      occurrences in `s[1..]`, shifted by one. */
  lemma OccursShift(s: string, p: string)
    requires |p| <= |s| && s[..|p|] != p
    ensures (exists i :: OccursAt(s, p, i)) <==> (exists j :: OccursAt(s[1..], p, j))
  {
    if i :| OccursAt(s, p, i) {
      assert i != 0;
      assert s[1..][i - 1..i - 1 + |p|] == s[i..i + |p|];
      assert OccursAt(s[1..], p, i - 1);
    }
    if j :| OccursAt(s[1..], p, j) {
      assert s[1..][j..j + |p|] == s[j + 1..j + 1 + |p|];
      assert OccursAt(s, p, j + 1);
    }
  }

  /** A witness position is enough to show `p in s`. */
  lemma ContainsAt(s: string, p: string, i: nat)
    requires i + |p| <= |s| && s[i..i + |p|] == p
    ensures Contains(s, p)
  {
    assert OccursAt(s, p, i);
  }

  /** A character of `p` that `s` lacks rules out `p in s`. */
  lemma MissingChar(s: string, p: string, c: char)
    requires c in p && c !in s
    ensures !Contains(s, p)
  {
    var j :| 0 <= j < |p| && p[j] == c;
    forall i | 0 <= i && i + |p| <= |s|
      ensures !OccursAt(s, p, i)
    {
      assert s[i..i + |p|][j] == s[i + j] != c;
    }
  }

  // ---------------------------------------------------------------------
  // Splitting on a single separator character
  // ---------------------------------------------------------------------

  /** `d.join(ps)`: the pieces with one separator between neighbours. */
  function Join(ps: seq<string>, d: char): string
    requires |ps| > 0
  {
    if |ps| == 1 then ps[0] else ps[0] + [d] + Join(ps[1..], d)
  }

  /** Number of occurrences of the character `d` in `s`. */
  function Count(s: string, d: char): nat {
    if |s| == 0 then 0 else (if s[0] == d then 1 else 0) + Count(s[1..], d)
  }

  /** Python's `s.split(d)` for a one-character separator: never empty,
      no piece contains the separator (empty pieces are kept, so two
      adjacent separators yield an empty token), and joining the pieces
      with the separator gives back `s`. */
  function Split(s: string, d: char): (ps: seq<string>)
    ensures |ps| > 0
    ensures forall i :: 0 <= i < |ps| ==> d !in ps[i]
    ensures Join(ps, d) == s
    decreases |s|
  {
    if |s| == 0 then [""]
    else
      var rest := Split(s[1..], d);
      if s[0] == d then
        assert ([""] + rest)[1..] == rest;
        [""] + rest
      else
        JoinPrepend(s[0], rest, d);
        [[s[0]] + rest[0]] + rest[1..]
  }

  lemma JoinPrepend(c: char, ps: seq<string>, d: char)
    requires |ps| > 0
    ensures Join([[c] + ps[0]] + ps[1..], d) == [c] + Join(ps, d)
  {
    var q := [[c] + ps[0]] + ps[1..];
    if |ps| > 1 {
      assert q[1..] == ps[1..];
    }
  }

  /** Splitting a separator-free string yields the string itself. */
  lemma {:induction false} SplitNoSeparator(s: string, d: char)
    requires d !in s
    ensures Split(s, d) == [s]
    decreases |s|
  {
    if |s| > 0 {
      assert s[0] in s;
      assert forall c :: c in s[1..] ==> c in s;
      SplitNoSeparator(s[1..], d);
    }
  }

  /** A separator-free prefix followed by the separator is the first piece. */
  lemma {:induction false} SplitFirstPiece(a: string, d: char, t: string)
    requires d !in a
    ensures Split(a + [d] + t, d) == [a] + Split(t, d)
    decreases |a|
  {
    var s := a + [d] + t;
    if |a| == 0 {
      assert s[1..] == t;
    } else {
      assert a[0] in a;
      assert forall c :: c in a[1..] ==> c in a;
      assert s[1..] == a[1..] + [d] + t;
      SplitFirstPiece(a[1..], d, t);
      assert [a[0]] + a[1..] == a;
    }
  }

  /** The pieces of a split are unique: any separator-free pieces that
      join back to `s` are exactly `Split(s, d)`.  So `Split` agrees with
      the reference reading "cut `s` at every occurrence of `d`". */
  lemma {:induction false} SplitUnique(s: string, d: char, ps: seq<string>)
    requires |ps| > 0
    requires forall i :: 0 <= i < |ps| ==> d !in ps[i]
    requires Join(ps, d) == s
    ensures ps == Split(s, d)
    decreases |s|
  {
    if |ps| == 1 {
      SplitNoSeparator(s, d);
    } else {
      var t := Join(ps[1..], d);
      assert s == ps[0] + [d] + t;
      SplitFirstPiece(ps[0], d, t);
      forall i | 0 <= i < |ps[1..]|
        ensures d !in ps[1..][i]
      {
        assert ps[1..][i] == ps[i + 1];
      }
      SplitUnique(t, d, ps[1..]);
      assert ps == [ps[0]] + ps[1..];
    }
  }

  /** A separator at some index is counted. */
  lemma {:induction false} CountAt(s: string, d: char, i: nat)
    requires i < |s| && s[i] == d
    ensures Count(s, d) >= 1
    decreases i
  {
    if i > 0 {
      CountAt(s[1..], d, i - 1);
    }
  }

  /** `s.split(d)` yields one more piece than there are separators. */
  lemma {:induction false} SplitCount(s: string, d: char)
    ensures |Split(s, d)| == Count(s, d) + 1
    decreases |s|
  {
    if |s| > 0 {
      SplitCount(s[1..], d);
    }
  }

  // ---------------------------------------------------------------------
  // The character filter applied to NETWORK lines
  // ---------------------------------------------------------------------

  /** The characters the NETWORK filter keeps: code points strictly
      between 1 and 128.  NUL and the \x01 the server uses to quote SSIDs
      are dropped, and so is every non-ASCII character. */
  predicate Printable(c: char) {
    1 < c as int < 128
  }

  /** `''.join(c for c in s if 1 < ord(c) < 128)`. */
  function KeepPrintable(s: string): (r: string)
    ensures |r| <= |s|
    ensures forall i :: 0 <= i < |r| ==> Printable(r[i])
  {
    if |s| == 0 then []
    else
      var rest := KeepPrintable(s[1..]);
      if Printable(s[0]) then [s[0]] + rest else rest
  }

  /** The filter only drops characters: it never adds one, nor repeats one. */
  lemma {:induction false} KeepPrintableSubset(s: string)
    ensures multiset(KeepPrintable(s)) <= multiset(s)
    decreases |s|
  {
    if |s| > 0 {
      KeepPrintableSubset(s[1..]);
      assert s == [s[0]] + s[1..];
    }
  }

  /** The filter works character by character and keeps the order: it
      distributes over concatenation ... */
  lemma {:induction false} KeepPrintableAppend(a: string, b: string)
    ensures KeepPrintable(a + b) == KeepPrintable(a) + KeepPrintable(b)
    decreases |a|
  {
    if |a| > 0 {
      assert (a + b)[0] == a[0];
      assert (a + b)[1..] == a[1..] + b;
      KeepPrintableAppend(a[1..], b);
      if Printable(a[0]) {
        assert KeepPrintable(a + b) == [a[0]] + KeepPrintable(a[1..] + b);
        assert KeepPrintable(a) == [a[0]] + KeepPrintable(a[1..]);
      } else {
        assert KeepPrintable(a + b) == KeepPrintable(a[1..] + b);
        assert KeepPrintable(a) == KeepPrintable(a[1..]);
      }
    } else {
      assert a + b == b;
    }
  }

  /** ... and on one character keeps it exactly when it is printable. */
  lemma KeepPrintableChar(c: char)
    ensures KeepPrintable([c]) == (if Printable(c) then [c] else [])
  {
  }

  /** A string with only kept characters passes through unchanged; in
      particular the filter is idempotent. */
  lemma {:induction false} KeepPrintableFixed(s: string)
    requires forall i :: 0 <= i < |s| ==> Printable(s[i])
    ensures KeepPrintable(s) == s
    decreases |s|
  {
    if |s| > 0 {
      KeepPrintableFixed(s[1..]);
    }
  }

  // ---------------------------------------------------------------------
  // int() of a byte string, base 10, as in Python 2
  // ---------------------------------------------------------------------

  /** C-locale whitespace: space, \t, \n, \v, \f, \r. */
  predicate IsSpace(c: char) {
    c == ' ' || 9 <= c as int <= 13
  }

  predicate IsDigit(c: char) {
    '0' <= c <= '9'
  }

  predicate AllDigits(s: string) {
    forall i :: 0 <= i < |s| ==> IsDigit(s[i])
  }

  predicate AllSpace(s: string) {
    forall i :: 0 <= i < |s| ==> IsSpace(s[i])
  }

  /** `s` without its leading whitespace. */
  function TrimLeft(s: string): (t: string)
    ensures |t| <= |s| && t == s[|s| - |t|..]
    ensures AllSpace(s[..|s| - |t|])
    ensures |t| == 0 || !IsSpace(t[0])
  {
    if |s| > 0 && IsSpace(s[0]) then
      var t := TrimLeft(s[1..]);
      assert s[..|s| - |t|] == [s[0]] + s[1..][..|s| - 1 - |t|];
      t
    else s
  }

  /** `s` without its trailing whitespace. */
  function TrimRight(s: string): (t: string)
    ensures |t| <= |s| && t == s[..|t|]
    ensures AllSpace(s[|t|..])
    ensures |t| == 0 || !IsSpace(t[|t| - 1])
  {
    if |s| > 0 && IsSpace(s[|s| - 1]) then
      var t := TrimRight(s[..|s| - 1]);
      assert s[|t|..] == s[..|s| - 1][|t|..] + [s[|s| - 1]];
      t
    else s
  }

  /** The number a non-empty run of decimal digits denotes. */
  function DigitsValue(ds: string): nat
    requires AllDigits(ds)
  {
    if |ds| == 0 then 0
    else DigitsValue(ds[..|ds| - 1]) * 10 + (ds[|ds| - 1] as int - '0' as int)
  }

  /** Python 2's `int(token)` for a byte string: surrounding whitespace is
      ignored, an optional sign may be followed by more whitespace, and
      then at least one decimal digit must follow; anything else is a
      ValueError, here `None`. */
  function ParseInt(s: string): (r: Option<int>)
    ensures r.Some? ==> HasDigit(s) && IntChars(s)
  {
    var tl := TrimLeft(s);
    var r := ParseSigned(TrimRight(tl));
    if r.Some? then
      TrimRightKeeps(tl);
      TrimLeftKeeps(s);
      r
    else r
  }

  /** The characters a number accepted by `int()` may be written with. */
  predicate IntChar(c: char) {
    IsSpace(c) || IsDigit(c) || c == '+' || c == '-'
  }

  /** Every character of `s` may occur in a number. */
  predicate IntChars(s: string)
    decreases |s|
  {
    |s| == 0 || (IntChar(s[0]) && IntChars(s[1..]))
  }

  /** Some character of `s` is a decimal digit. */
  predicate HasDigit(s: string)
    decreases |s|
  {
    |s| > 0 && (IsDigit(s[0]) || HasDigit(s[1..]))
  }

  /** A non-empty run of digits is written with number characters and
      holds a digit. */
  lemma {:induction false} DigitsChars(d: string)
    requires |d| > 0 && AllDigits(d)
    ensures IntChars(d) && HasDigit(d)
    decreases |d|
  {
    if |d| > 1 {
      DigitsChars(d[1..]);
    }
  }

  /** Putting one more character at the back keeps a digit, and keeps
      the string written with number characters when the new character
      is one. */
  lemma {:induction false} SnocKeeps(s: string, c: char)
    ensures IntChars(s) && IntChar(c) ==> IntChars(s + [c])
    ensures HasDigit(s) ==> HasDigit(s + [c])
    decreases |s|
  {
    if |s| > 0 {
      SnocKeeps(s[1..], c);
      assert (s + [c])[1..] == s[1..] + [c];
    } else {
      assert (s + [c])[1..] == [];
    }
  }

  /** Whitespace stripped from the front was whitespace, so a string
      whose stripped form is written with number characters is too, and
      a digit of the stripped form is a digit of the string. */
  lemma {:induction false} TrimLeftKeeps(s: string)
    ensures IntChars(TrimLeft(s)) ==> IntChars(s)
    ensures HasDigit(TrimLeft(s)) ==> HasDigit(s)
    decreases |s|
  {
    if |s| > 0 && IsSpace(s[0]) {
      assert TrimLeft(s) == TrimLeft(s[1..]);
      TrimLeftKeeps(s[1..]);
    }
  }

  /** The same for whitespace stripped from the back. */
  lemma {:induction false} TrimRightKeeps(s: string)
    ensures IntChars(TrimRight(s)) ==> IntChars(s)
    ensures HasDigit(TrimRight(s)) ==> HasDigit(s)
    decreases |s|
  {
    if |s| > 0 && IsSpace(s[|s| - 1]) {
      var front := s[..|s| - 1];
      assert TrimRight(s) == TrimRight(front);
      TrimRightKeeps(front);
      SnocKeeps(front, s[|s| - 1]);
      assert front + [s[|s| - 1]] == s;
    }
  }

  /** `int()` of a token already stripped of surrounding whitespace. */
  function ParseSigned(t: string): (r: Option<int>)
    ensures r.Some? ==> HasDigit(t) && IntChars(t)
  {
    SignedKeeps(t);
    if |t| > 0 && t[0] == '-' then
      match ParseDigits(TrimLeft(t[1..]))
      case Some(v) => Some(-v)
      case None => None
    else if |t| > 0 && t[0] == '+' then ParseDigits(TrimLeft(t[1..]))
    else ParseDigits(t)
  }

  /** What `ParseSigned` accepts, case by case: a sign, optional
      whitespace and digits, or digits alone. */
  lemma SignedKeeps(t: string)
    ensures |t| > 0 && (t[0] == '-' || t[0] == '+') && ParseDigits(TrimLeft(t[1..])).Some? ==>
      HasDigit(t) && IntChars(t)
    ensures ParseDigits(t).Some? ==> HasDigit(t) && IntChars(t)
  {
    if |t| > 0 && (t[0] == '-' || t[0] == '+') && ParseDigits(TrimLeft(t[1..])).Some? {
      DigitsChars(TrimLeft(t[1..]));
      TrimLeftKeeps(t[1..]);
    }
    if ParseDigits(t).Some? {
      DigitsChars(t);
    }
  }


  /** A non-empty run of decimal digits and the number it denotes. */
  function ParseDigits(b: string): Option<int> {
    if |b| > 0 && AllDigits(b) then Some(DigitsValue(b)) else None
  }

  /** The decimal digit for 0 <= n < 10. */
  function Digit(n: nat): char
    requires n < 10
  {
    ('0' as int + n) as char
  }

  /** `str(n)` for a natural number: its shortest decimal spelling. */
  function ShowNat(n: nat): (s: string)
    ensures |s| > 0 && AllDigits(s)
  {
    if n < 10 then [Digit(n)] else ShowNat(n / 10) + [Digit(n % 10)]
  }

  /** `str(n)` for any integer. */
  function ShowInt(n: int): string {
    if n < 0 then "-" + ShowNat(-n) else ShowNat(n)
  }

  lemma {:induction false} DigitsValueShowNat(n: nat)
    ensures DigitsValue(ShowNat(n)) == n
    decreases n
  {
    if n >= 10 {
      var s := ShowNat(n);
      assert s[..|s| - 1] == ShowNat(n / 10);
      DigitsValueShowNat(n / 10);
    }
  }

  lemma TrimLeftNoSpace(s: string)
    requires |s| == 0 || !IsSpace(s[0])
    ensures TrimLeft(s) == s
  {
  }

  lemma {:induction false} TrimLeftSpaces(w: string, s: string)
    requires AllSpace(w)
    requires |s| == 0 || !IsSpace(s[0])
    ensures TrimLeft(w + s) == s
    decreases |w|
  {
    if |w| > 0 {
      assert (w + s)[1..] == w[1..] + s;
      TrimLeftSpaces(w[1..], s);
    } else {
      assert w + s == s;
    }
  }

  lemma {:induction false} TrimRightSpaces(s: string, w: string)
    requires AllSpace(w)
    requires |s| == 0 || !IsSpace(s[|s| - 1])
    ensures TrimRight(s + w) == s
    decreases |w|
  {
    if |w| > 0 {
      assert (s + w)[..|s + w| - 1] == s + w[..|w| - 1];
      TrimRightSpaces(s, w[..|w| - 1]);
    } else {
      assert s + w == s;
    }
  }

  /** Round trip: `int()` reads back what `str()` wrote, whatever
      whitespace surrounds it, for instance the line terminator that stays
      on the last token of a received line. */
  lemma ParseShowInt(n: int, lead: string, trail: string)
    requires AllSpace(lead) && AllSpace(trail)
    ensures ParseInt(lead + ShowInt(n) + trail) == Some(n)
  {
    TrimShowInt(n, lead, trail);
    ParseSignedShowInt(n);
  }

  lemma TrimShowInt(n: int, lead: string, trail: string)
    requires AllSpace(lead) && AllSpace(trail)
    ensures TrimRight(TrimLeft(lead + ShowInt(n) + trail)) == ShowInt(n)
  {
    var m := ShowInt(n);
    assert !IsSpace(m[0]) && !IsSpace(m[|m| - 1]);
    assert lead + m + trail == lead + (m + trail);
    TrimLeftSpaces(lead, m + trail);
    TrimRightSpaces(m, trail);
  }

  lemma ParseSignedShowInt(n: int)
    ensures ParseSigned(ShowInt(n)) == Some(n)
  {
    var digits := ShowNat(if n < 0 then -n else n);
    DigitsValueShowNat(if n < 0 then -n else n);
    assert ParseDigits(digits) == Some(if n < 0 then -n else n);
    if n < 0 {
      assert ShowInt(n)[1..] == digits;
      TrimLeftNoSpace(digits);
    } else {
      assert ShowInt(n)[0] != '-' && ShowInt(n)[0] != '+';
    }
  }


}
