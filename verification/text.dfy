/** The Python string operations the server relies on: `str(int)`,
    `in`, `startswith`, `split(sep)`, `strip()` and `replace(c, "")`, on
    strings as sequences of characters. */
module Text {
  import opened Optional

  /** `sub` occurs in `s` starting at position i. */
  predicate OccursAt(s: string, sub: string, i: int)
  {
    0 <= i && i + |sub| <= |s| && s[i..i + |sub|] == sub
  }

  /** Python's `sub in s`. */
  predicate Contains(s: string, sub: string)
  {
    exists i :: 0 <= i <= |s| - |sub| && OccursAt(s, sub, i)
  }

  /** Python's `s.startswith(prefix)`. */
  predicate StartsWith(s: string, prefix: string)
  {
    OccursAt(s, prefix, 0)
  }

  /** The first position where `sub` occurs, searching from `from` on
      (Python's `s.find(sub, from)`, with None for -1). */
  function FindFrom(s: string, sub: string, from: nat): (r: Option<nat>)
    requires from <= |s|
    ensures r.Some? ==> from <= r.value && OccursAt(s, sub, r.value)
    decreases |s| - from
  {
    if OccursAt(s, sub, from) then Some(from)
    else if from == |s| then None
    else FindFrom(s, sub, from + 1)
  }

  /** Python's `s.find(sub)`. */
  function Find(s: string, sub: string): (r: Option<nat>)
    ensures r.Some? ==> OccursAt(s, sub, r.value)
  {
    FindFrom(s, sub, 0)
  }

  /** FindFrom finds the first occurrence from `from` on, and reports None
      only when there is none. */
  lemma {:induction false} FindFromIsFirst(s: string, sub: string, from: nat)
    requires from <= |s|
    ensures var r := FindFrom(s, sub, from);
            && (r.Some? ==> forall i :: from <= i < r.value ==> !OccursAt(s, sub, i))
            && (r.None? ==> forall i :: from <= i ==> !OccursAt(s, sub, i))
    decreases |s| - from
  {
    if !OccursAt(s, sub, from) && from < |s| {
      FindFromIsFirst(s, sub, from + 1);
    }
  }

  /** Find reports the first occurrence, and one exactly when sub occurs. */
  lemma FindIsFirst(s: string, sub: string)
    ensures Find(s, sub).Some? <==> Contains(s, sub)
    ensures Find(s, sub).Some? ==> forall i :: 0 <= i < Find(s, sub).value ==> !OccursAt(s, sub, i)
  {
    FindFromIsFirst(s, sub, 0);
  }

  /** An occurrence with none before it is what Find reports. */
  lemma FindReportsFirst(s: string, sub: string, n: nat)
    requires OccursAt(s, sub, n)
    requires forall i :: 0 <= i < n ==> !OccursAt(s, sub, i)
    ensures Find(s, sub) == Some(n)
  {
    FindIsFirst(s, sub);
    FindFromIsFirst(s, sub, 0);
  }

  /** Python's `s.split(sep)` for a non-empty separator, from position
      `from` on: cut at the first occurrence and continue after it, left to
      right without overlap. */
  function SplitFrom(s: string, sep: string, from: nat): (r: seq<string>)
    requires sep != [] && from <= |s|
    ensures |r| >= 1
    decreases |s| - from
  {
    match FindFrom(s, sep, from)
    case None => [s[from..]]
    case Some(i) => [s[from..i]] + SplitFrom(s, sep, i + |sep|)
  }

  /** Python's `s.split(sep)`. */
  function Split(s: string, sep: string): (r: seq<string>)
    requires sep != []
  {
    SplitFrom(s, sep, 0)
  }

  /** The inverse of Split: the pieces glued back with the separator. */
  function Join(pieces: seq<string>, sep: string): string
  {
    if |pieces| <= 1 then (if pieces == [] then "" else pieces[0])
    else pieces[0] + sep + Join(pieces[1..], sep)
  }

  /** An occurrence inside a slice is an occurrence in the whole string. */
  lemma OccursInSlice(s: string, sub: string, a: nat, b: nat, j: int)
    requires a <= b <= |s| && OccursAt(s[a..b], sub, j)
    ensures OccursAt(s, sub, a + j)
  {
    forall k | 0 <= k < |sub|
      ensures s[a + j + k] == sub[k]
    {
      assert s[a..b][j..j + |sub|][k] == sub[k];
    }
    assert s[a + j..a + j + |sub|] == sub;
  }

  /** Joining the pieces of a split gives back the text split, no piece
      contains the separator, and there is more than one piece exactly when
      the separator occurs. */
  lemma {:induction false} SplitFromJoin(s: string, sep: string, from: nat)
    requires sep != [] && from <= |s|
    ensures Join(SplitFrom(s, sep, from), sep) == s[from..]
    ensures forall k :: 0 <= k < |SplitFrom(s, sep, from)| ==> !Contains(SplitFrom(s, sep, from)[k], sep)
    ensures |SplitFrom(s, sep, from)| > 1 <==> FindFrom(s, sep, from).Some?
    decreases |s| - from
  {
    FindFromIsFirst(s, sep, from);
    var pieces := SplitFrom(s, sep, from);
    match FindFrom(s, sep, from)
    case None =>
      forall j | OccursAt(s[from..], sep, j)
        ensures false
      {
        assert s[from..] == s[from..|s|];
        OccursInSlice(s, sep, from, |s|, j);
      }
    case Some(i) =>
      var next := i + |sep|;
      var rest := SplitFrom(s, sep, next);
      SplitFromJoin(s, sep, next);
      assert pieces == [s[from..i]] + rest;
      assert pieces[1..] == rest;
      assert s[from..] == s[from..i] + sep + s[next..] by {
        assert s[i..next] == sep;
      }
      forall j | OccursAt(s[from..i], sep, j)
        ensures false
      {
        OccursInSlice(s, sep, from, i, j);
      }
      forall k | 1 <= k < |pieces|
        ensures !Contains(pieces[k], sep)
      {
        assert pieces[k] == rest[k - 1];
      }
  }

  lemma SplitJoin(s: string, sep: string)
    requires sep != []
    ensures Join(Split(s, sep), sep) == s
    ensures forall k :: 0 <= k < |Split(s, sep)| ==> !Contains(Split(s, sep)[k], sep)
    ensures |Split(s, sep)| > 1 <==> Contains(s, sep)
  {
    SplitFromJoin(s, sep, 0);
    FindIsFirst(s, sep);
    assert s[0..] == s;
  }

  lemma SplitFromStep(s: string, sep: string, from: nat, i: nat)
    requires sep != [] && from <= |s| && FindFrom(s, sep, from) == Some(i)
    ensures SplitFrom(s, sep, from) == [s[from..i]] + SplitFrom(s, sep, i + |sep|)
  {
  }

  lemma LastStartWithoutCut(s: string, sep: string, from: nat)
    requires sep != [] && from <= |s| && FindFrom(s, sep, from).None?
    ensures LastStart(s, sep, from) == from
  {
  }

  lemma LastStartStep(s: string, sep: string, from: nat, i: nat)
    requires sep != [] && from <= |s| && FindFrom(s, sep, from) == Some(i)
    ensures LastStart(s, sep, from) == LastStart(s, sep, i + |sep|)
  {
  }

  /** Where the last piece of a split from `from` begins: `from` itself
      when the separator does not occur after it, and otherwise just after
      an occurrence. */
  function LastStart(s: string, sep: string, from: nat): (r: nat)
    requires sep != [] && from <= |s|
    ensures from <= r <= |s|
    decreases |s| - from
  {
    match FindFrom(s, sep, from)
    case None => from
    case Some(i) => LastStart(s, sep, i + |sep|)
  }

  /** The last piece starts right after an occurrence of the separator,
      unless there is no cut at all. */
  lemma {:induction false} LastStartFollowsCut(s: string, sep: string, from: nat)
    requires sep != [] && from <= |s|
    ensures var r := LastStart(s, sep, from);
            && (FindFrom(s, sep, from).None? ==> r == from)
            && (FindFrom(s, sep, from).Some? ==> r >= from + |sep| && OccursAt(s, sep, r - |sep|))
    decreases |s| - from
  {
    var f := FindFrom(s, sep, from);
    if f.None? {
      LastStartWithoutCut(s, sep, from);
    } else {
      var i := f.value;
      var next := i + |sep|;
      LastStartStep(s, sep, from, i);
      LastStartFollowsCut(s, sep, next);
      var r := LastStart(s, sep, from);
      if FindFrom(s, sep, next).None? {
        assert r - |sep| == i;
        assert OccursAt(s, sep, i);
      } else {
        assert OccursAt(s, sep, r - |sep|);
      }
    }
  }

  /** Python's `s.split(sep)[-1]`. */
  function LastPiece(s: string, sep: string): (r: string)
    requires sep != []
  {
    s[LastStart(s, sep, 0)..]
  }

  /** LastStart is where the split's last piece begins. */
  lemma {:induction false} LastStartBeginsLastPiece(s: string, sep: string, from: nat)
    requires sep != [] && from <= |s|
    ensures var pieces := SplitFrom(s, sep, from);
            pieces[|pieces| - 1] == s[LastStart(s, sep, from)..]
    decreases |s| - from
  {
    match FindFrom(s, sep, from)
    case None =>
    case Some(i) =>
      var rest := SplitFrom(s, sep, i + |sep|);
      LastStartBeginsLastPiece(s, sep, i + |sep|);
      SplitFromStep(s, sep, from, i);
      LastStartStep(s, sep, from, i);
      assert ([s[from..i]] + rest)[|rest|] == rest[|rest| - 1];
  }

  /** The last piece is the last element of the split, holds no separator,
      follows an occurrence when the separator occurs, and is all of s
      otherwise. */
  lemma LastPieceFollowsSeparator(s: string, sep: string)
    requires sep != []
    ensures LastPiece(s, sep) == Split(s, sep)[|Split(s, sep)| - 1]
    ensures !Contains(LastPiece(s, sep), sep)
    ensures Contains(s, sep) ==> LastStart(s, sep, 0) >= |sep| && OccursAt(s, sep, LastStart(s, sep, 0) - |sep|)
    ensures !Contains(s, sep) ==> LastPiece(s, sep) == s
  {
    SplitJoin(s, sep);
    FindIsFirst(s, sep);
    LastStartBeginsLastPiece(s, sep, 0);
    LastStartFollowsCut(s, sep, 0);
    assert s[0..] == s;
  }

  /** The whitespace characters Python's `str.strip()` removes. */
  predicate IsSpace(c: char)
  {
    c == ' ' || c == '\t' || c == '\n' || c == '\r' || c == '\U{000B}' || c == '\U{000C}'
    || ('\U{001C}' <= c <= '\U{001F}') || c == '\U{0085}' || c == '\U{00A0}' || c == '\U{1680}'
    || ('\U{2000}' <= c <= '\U{200A}') || c == '\U{2028}' || c == '\U{2029}' || c == '\U{202F}'
    || c == '\U{205F}' || c == '\U{3000}'
  }

  /** The first position at or after `from` that is not whitespace, or
      |s| when there is none. */
  function FirstNonSpace(s: string, from: nat): (r: nat)
    requires from <= |s|
    ensures from <= r <= |s|
    ensures forall k :: from <= k < r ==> IsSpace(s[k])
    ensures r < |s| ==> !IsSpace(s[r])
    decreases |s| - from
  {
    if from == |s| || !IsSpace(s[from]) then from else FirstNonSpace(s, from + 1)
  }

  /** One past the last position before `to` that is not whitespace, or 0
      when there is none. */
  function EndOfText(s: string, to: nat): (r: nat)
    requires to <= |s|
    ensures r <= to
    ensures forall k :: r <= k < to ==> IsSpace(s[k])
    ensures r > 0 ==> !IsSpace(s[r - 1])
  {
    if to == 0 || !IsSpace(s[to - 1]) then to else EndOfText(s, to - 1)
  }

  /** Python's `s.strip()`: leading and trailing whitespace removed. */
  function Strip(s: string): (r: string)
  {
    var i := FirstNonSpace(s, 0);
    if i == |s| then [] else s[i..EndOfText(s, |s|)]
  }

  /** The stripped string is the middle part of s between a run of leading
      and a run of trailing whitespace, and it neither begins nor ends with
      whitespace. */
  lemma StripKeepsMiddle(s: string)
    ensures var i := FirstNonSpace(s, 0);
            var r := Strip(s);
            && i + |r| <= |s| && s[i..i + |r|] == r
            && (forall j :: 0 <= j < i ==> IsSpace(s[j]))
            && (forall j :: i + |r| <= j < |s| ==> IsSpace(s[j]))
    ensures Strip(s) != [] ==> !IsSpace(Strip(s)[0]) && !IsSpace(Strip(s)[|Strip(s)| - 1])
  {
    var i := FirstNonSpace(s, 0);
    if i < |s| {
      var j := EndOfText(s, |s|);
      assert i < j;
    }
  }

  /** Stripping twice changes nothing. */
  lemma StripIsIdempotent(s: string)
    ensures Strip(Strip(s)) == Strip(s)
  {
    StripKeepsMiddle(s);
    var r := Strip(s);
    if r != [] {
      assert FirstNonSpace(r, 0) == 0;
      assert EndOfText(r, |r|) == |r|;
      assert r[0..|r|] == r;
    }
  }

  /** Python's `s.replace(c, "")` for a one-character string c. */
  function RemoveAll(s: string, c: char): (r: string)
    ensures c !in r
    ensures |r| <= |s|
  {
    if s == [] then []
    else (if s[0] == c then [] else [s[0]]) + RemoveAll(s[1..], c)
  }

  /** Removal works piece by piece, keeps every other character in order,
      and leaves a string without c untouched. */
  lemma {:induction false} RemoveAllAppend(a: string, b: string, c: char)
    ensures RemoveAll(a + b, c) == RemoveAll(a, c) + RemoveAll(b, c)
    decreases |a|
  {
    if a != [] {
      assert (a + b)[0] == a[0] && (a + b)[1..] == a[1..] + b;
      RemoveAllAppend(a[1..], b, c);
    } else {
      assert a + b == b;
    }
  }

  lemma {:induction false} RemoveAllKeepsOthers(s: string, c: char)
    ensures c !in s ==> RemoveAll(s, c) == s
    ensures forall d :: d != c ==> multiset(RemoveAll(s, c))[d] == multiset(s)[d]
    decreases |s|
  {
    if s != [] {
      RemoveAllKeepsOthers(s[1..], c);
      assert s == [s[0]] + s[1..];
    }
  }

  predicate IsDigit(c: char)
  {
    '0' <= c <= '9'
  }

  predicate AllDigits(s: string)
  {
    forall k :: 0 <= k < |s| ==> IsDigit(s[k])
  }

  /** The decimal digits of n, most significant first, with no leading
      zero. */
  function Digits(n: nat): (r: string)
    ensures r != [] && AllDigits(r)
    ensures |r| > 1 ==> r[0] != '0'
  {
    var d := ['0' + (n % 10) as char];
    if n < 10 then d else Digits(n / 10) + d
  }

  /** Python's `str(i)` (and the f-string `{i}`) for an int. */
  function IntToStr(i: int): (r: string)
    ensures forall k :: 0 <= k < |r| ==> r[k] == '-' || IsDigit(r[k])
  {
    if i < 0 then "-" + Digits(-i) else Digits(i)
  }

  /** The value of a string of decimal digits. */
  function DigitValue(s: string): nat
  {
    if s == [] then 0
    else DigitValue(s[..|s| - 1]) * 10 + (if IsDigit(s[|s| - 1]) then (s[|s| - 1] - '0') as nat else 0)
  }

  /** Reading back a decimal numeral: an optional minus sign followed by
      at least one digit. */
  function ParseInt(s: string): (r: Option<int>)
  {
    if s != [] && s[0] == '-' then
      (if |s| > 1 && AllDigits(s[1..]) then Some(0 - DigitValue(s[1..])) else None)
    else if s != [] && AllDigits(s) then Some(DigitValue(s))
    else None
  }

  lemma {:induction false} DigitsValue(n: nat)
    ensures DigitValue(Digits(n)) == n
  {
    var d := ['0' + (n % 10) as char];
    if n >= 10 {
      DigitsValue(n / 10);
      assert (Digits(n / 10) + d)[..|Digits(n)| - 1] == Digits(n / 10);
    }
  }

  /** Parsing a printed integer gives it back. */
  lemma IntToStrRoundTrip(i: int)
    ensures ParseInt(IntToStr(i)) == Some(i)
  {
    if i < 0 {
      var body := Digits(-i);
      DigitsValue(-i);
      assert ("-" + body)[1..] == body;
      assert IsDigit(body[0]);
    } else {
      var body := Digits(i);
      DigitsValue(i);
      assert IsDigit(body[0]);
    }
  }
}
