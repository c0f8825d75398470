/** The pieces of Go's strings and strconv packages that decide anything here. */
module Texts {
  import opened Results
  import opened Sizes

  // ---- strings.Split and strings.Join ----

  function Split(s: string, sep: char): (parts: seq<string>)
    ensures parts != []
  {
    if s == [] then [""]
    else
      var parts := Split(s[1..], sep);
      if s[0] == sep then [""] + parts else [[s[0]] + parts[0]] + parts[1..]
  }

  function Join(parts: seq<string>, sep: char): string
    requires parts != []
  {
    if |parts| == 1 then parts[0] else parts[0] + [sep] + Join(parts[1..], sep)
  }

  ghost predicate Free(parts: seq<string>, sep: char) {
    forall p | p in parts :: sep !in p
  }

  function Prepend(c: char, parts: seq<string>): seq<string>
    requires parts != []
  {
    [[c] + parts[0]] + parts[1..]
  }

  lemma JoinPrepended(c: char, parts: seq<string>, sep: char)
    requires parts != []
    ensures Join(Prepend(c, parts), sep) == [c] + Join(parts, sep)
  {
    assert Prepend(c, parts)[1..] == parts[1..];
    if |parts| > 1 {
      var rest := Join(parts[1..], sep);
      assert ([c] + parts[0]) + [sep] + rest == [c] + (parts[0] + [sep] + rest);
    }
  }

  lemma JoinAfterEmpty(parts: seq<string>, sep: char)
    requires parts != []
    ensures Join([""] + parts, sep) == [sep] + Join(parts, sep)
  {
    assert ([""] + parts)[1..] == parts;
  }

  lemma {:induction false} JoinOfSplit(s: string, sep: char)
    ensures Free(Split(s, sep), sep) && Join(Split(s, sep), sep) == s
  {
    hide Join;
    if s == [] {
      assert Join([""], sep) == "" by { JoinOne("", sep); }
    } else {
      var parts := Split(s[1..], sep);
      JoinOfSplit(s[1..], sep);
      assert s == [s[0]] + s[1..];
      if s[0] == sep {
        JoinAfterEmpty(parts, sep);
      } else {
        JoinPrepended(s[0], parts, sep);
      }
    }
  }

  lemma JoinOne(p: string, sep: char)
    ensures Join([p], sep) == p
  {
  }

  lemma {:induction false} SplitOfJoin(parts: seq<string>, sep: char)
    requires parts != [] && Free(parts, sep)
    ensures Split(Join(parts, sep), sep) == parts
    decreases |parts|, |parts[0]|
  {
    hide Join;
    var first, rest := parts[0], parts[1..];
    assert first in parts;
    if first != "" {
      var shorter := [first[1..]] + rest;
      assert first == [first[0]] + first[1..] && shorter[1..] == rest;
      assert Prepend(first[0], shorter) == parts;
      FreeShorter(parts, sep);
      JoinPrepended(first[0], shorter, sep);
      SplitOfJoin(shorter, sep);
    } else if rest != [] {
      assert parts == [""] + rest;
      JoinAfterEmpty(rest, sep);
      SplitOfJoin(rest, sep);
    } else {
      JoinOne(first, sep);
      assert parts == [first];
    }
  }

  lemma FreeShorter(parts: seq<string>, sep: char)
    requires parts != [] && Free(parts, sep) && parts[0] != ""
    ensures Free([parts[0][1..]] + parts[1..], sep)
  {
    assert parts[0] in parts && forall p | p in parts[1..] :: p in parts;
  }

  // The parts of a string are the one way to write it as parts free of the separator.
  lemma SplitIff(s: string, parts: seq<string>, sep: char)
    requires parts != []
    ensures Split(s, sep) == parts <==> Free(parts, sep) && Join(parts, sep) == s
  {
    JoinOfSplit(s, sep);
    if Free(parts, sep) {
      SplitOfJoin(parts, sep);
    }
  }

  // ---- strings.TrimSpace ----

  // A byte outside ASCII is part of a character, or stays as an invalid one.
  predicate IsSpace(c: char) {
    c == ' ' || '\t' <= c <= '\r'
  }

  function TrimLeft(s: string): string {
    if s != [] && IsSpace(s[0]) then TrimLeft(s[1..]) else s
  }

  function TrimRight(s: string): string {
    if s != [] && IsSpace(s[|s| - 1]) then TrimRight(s[..|s| - 1]) else s
  }

  function TrimSpace(s: string): string {
    TrimRight(TrimLeft(s))
  }

  ghost predicate Blank(s: string) {
    forall i | 0 <= i < |s| :: IsSpace(s[i])
  }

  predicate Trimmed(s: string) {
    s == "" || (!IsSpace(s[0]) && !IsSpace(s[|s| - 1]))
  }

  // Trimming takes off exactly the spaces at both ends.
  lemma TrimSpaceIff(s: string, t: string)
    ensures TrimSpace(s) == t <==> Trimmed(t) && exists a, b :: Blank(a) && Blank(b) && s == a + t + b
  {
    if TrimSpace(s) == t {
      var a, b := TrimmedParts(s);
    } else if Trimmed(t) {
      if a, b :| Blank(a) && Blank(b) && s == a + t + b {
        TrimOfPadded(a, t, b);
      }
    }
  }

  lemma TrimmedParts(s: string) returns (a: string, b: string)
    ensures Trimmed(TrimSpace(s)) && Blank(a) && Blank(b) && s == a + TrimSpace(s) + b
  {
    a := LeftPart(s);
    b := RightPart(TrimLeft(s));
    if TrimSpace(s) != "" {
      assert TrimSpace(s)[0] == TrimLeft(s)[0];
    }
  }

  lemma TrimOfPadded(a: string, t: string, b: string)
    requires Trimmed(t) && Blank(a) && Blank(b)
    ensures TrimSpace(a + t + b) == t
  {
    assert a + t + b == a + (t + b);
    if t == "" {
      assert a + (t + b) == (a + b) + "";
      TrimLeftOff(a + b, "");
    } else {
      TrimLeftOff(a, t + b);
      TrimRightOff(t, b);
    }
  }

  lemma {:induction false} LeftPart(s: string) returns (a: string)
    ensures Blank(a) && s == a + TrimLeft(s) && (TrimLeft(s) != "" ==> !IsSpace(TrimLeft(s)[0]))
  {
    a := "";
    if s != [] && IsSpace(s[0]) {
      var rest := LeftPart(s[1..]);
      a := [s[0]] + rest;
    }
  }

  lemma {:induction false} RightPart(s: string) returns (b: string)
    ensures Blank(b) && s == TrimRight(s) + b && (TrimRight(s) != "" ==> !IsSpace(TrimRight(s)[|TrimRight(s)| - 1]))
  {
    b := "";
    if s != [] && IsSpace(s[|s| - 1]) {
      var front := RightPart(s[..|s| - 1]);
      b := front + [s[|s| - 1]];
    }
  }

  lemma {:induction false} TrimLeftOff(a: string, t: string)
    requires Blank(a) && (t == "" || !IsSpace(t[0]))
    ensures TrimLeft(a + t) == t
  {
    if a != [] {
      assert (a + t)[1..] == a[1..] + t && IsSpace(a[0]);
      TrimLeftOff(a[1..], t);
    } else {
      assert a + t == t;
    }
  }

  lemma {:induction false} TrimRightOff(t: string, b: string)
    requires Blank(b) && (t == "" || !IsSpace(t[|t| - 1]))
    ensures TrimRight(t + b) == t
  {
    if b != [] {
      var front := b[..|b| - 1];
      assert (t + b)[..|t + b| - 1] == t + front && IsSpace(b[|b| - 1]);
      TrimRightOff(t, front);
    } else {
      assert t + b == t;
    }
  }

  // ---- strconv.Itoa and strconv.Atoi ----

  predicate IsDigit(c: char) {
    '0' <= c <= '9'
  }

  predicate AllDigits(s: string) {
    forall i | 0 <= i < |s| :: IsDigit(s[i])
  }

  function Itoa(n: nat): (s: string) {
    (if n < 10 then "" else Itoa(n / 10)) + [(n % 10) as char + '0']
  }

  function Number(s: string): int
    requires AllDigits(s)
  {
    if s == [] then 0 else 10 * Number(s[..|s| - 1]) + (s[|s| - 1] - '0') as nat
  }

  // An optional sign and digits, within int64.
  function Atoi(s: string): (r: Option<int>)
    ensures r.Some? ==> IsInt64(r.value)
  {
    var digits := if s != [] && (s[0] == '+' || s[0] == '-') then s[1..] else s;
    if digits == [] || !AllDigits(digits) then None
    else
      var n: int := if s[0] == '-' then -Number(digits) else Number(digits);
      if IsInt64(n) then Some(n) else None
  }

  lemma {:induction false} ItoaIsNumeral(n: nat)
    ensures Itoa(n) != [] && AllDigits(Itoa(n)) && Number(Itoa(n)) == n
  {
    var last := (n % 10) as char + '0';
    if n >= 10 {
      ItoaIsNumeral(n / 10);
    }
    assert Itoa(n)[..|Itoa(n)| - 1] == if n < 10 then "" else Itoa(n / 10);
  }

  lemma AtoiOfItoa(n: nat)
    requires n < TWO_63
    ensures Atoi(Itoa(n)) == Some(n)
  {
    ItoaIsNumeral(n);
    assert IsDigit(Itoa(n)[0]);
  }
}
