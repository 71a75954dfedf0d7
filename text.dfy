/** The two Python string operations the server relies on, on `seq<char>`:
    `str.split(sep)` with an explicit one-character separator and
    `sep.join(parts)`, plus the decimal rendering an f-string gives a
    port number. */
module Text {
  import opened Seqs

  /** Python's `s.split(sep)`: the pieces between consecutive separators,
      empty pieces included; "" splits to [""]. */
  function Split(s: string, sep: char): (parts: seq<string>)
    ensures |parts| == Occ(s, sep) + 1
    decreases |s|
  {
    if s == [] then [""]
    else
      var r := Split(s[..|s| - 1], sep);
      var c := s[|s| - 1];
      if c == sep then r + [""]
      else r[..|r| - 1] + [r[|r| - 1] + [c]]
  }

  /** No piece of a split contains the separator. */
  lemma {:induction false} SplitPiecesFree(s: string, sep: char, i: nat)
    requires i < |Split(s, sep)|
    ensures sep !in Split(s, sep)[i]
    decreases |s|
  {
    if s != [] {
      var p, c := s[..|s| - 1], s[|s| - 1];
      var r := Split(p, sep);
      if c == sep {
        if i < |r| { SplitPiecesFree(p, sep, i); }
      } else {
        SplitPiecesFree(p, sep, i);
      }
    }
  }

  /** Python's `sep.join(parts)`; joining no parts gives "". When no part
      holds the separator, the joined text holds one separator fewer than
      there are parts. */
  function Join(parts: seq<string>, sep: char): (s: string)
    ensures parts != [] && (forall k :: 0 <= k < |parts| ==> sep !in parts[k]) ==> Occ(s, sep) == |parts| - 1
    decreases |parts|
  {
    if |parts| == 0 then ""
    else if |parts| == 1 then parts[0]
    else
      var j, last := Join(parts[..|parts| - 1], sep), parts[|parts| - 1];
      OccAppend(j + [sep], last, sep);
      OccAppend(j, [sep], sep);
      j + [sep] + last
  }

  lemma JoinSnoc(parts: seq<string>, last: string, sep: char)
    requires |parts| >= 1
    ensures Join(parts + [last], sep) == Join(parts, sep) + [sep] + last
  {
    assert (parts + [last])[..|parts|] == parts;
  }

  /** Joining what was split gives back the original text. */
  lemma {:induction false} JoinSplit(s: string, sep: char)
    ensures Join(Split(s, sep), sep) == s
    decreases |s|
  {
    if s != [] {
      var p, c := s[..|s| - 1], s[|s| - 1];
      assert s == p + [c];
      var r := Split(p, sep);
      JoinSplit(p, sep);
      if c == sep {
        JoinSnoc(r, "", sep);
      } else {
        var k := |r| - 1;
        if k == 0 {
          assert Split(s, sep) == [r[0] + [c]];
        } else {
          assert r == r[..k] + [r[k]];
          JoinSnoc(r[..k], r[k], sep);
          JoinSnoc(r[..k], r[k] + [c], sep);
        }
      }
    }
  }

  lemma {:induction false} SplitNoSeparator(s: string, sep: char)
    requires sep !in s
    ensures Split(s, sep) == [s]
    decreases |s|
  {
    if s != [] {
      var p := s[..|s| - 1];
      assert sep !in p by {
        forall i | 0 <= i < |p| ensures p[i] != sep { assert p[i] == s[i]; }
      }
      SplitNoSeparator(p, sep);
      assert s == p + [s[|s| - 1]];
    }
  }

  lemma SplitSnoc(p: string, c: char, sep: char)
    ensures var r := Split(p, sep);
      Split(p + [c], sep) == if c == sep then r + [""] else r[..|r| - 1] + [r[|r| - 1] + [c]]
  {
    assert (p + [c])[..|p|] == p;
  }

  /** A separator splits the text into the pieces on its left followed by
      the pieces on its right. */
  lemma {:induction false} SplitAtSeparator(a: string, b: string, sep: char)
    ensures Split(a + [sep] + b, sep) == Split(a, sep) + Split(b, sep)
    decreases |b|
  {
    if b == [] {
      SplitSnoc(a, sep, sep);
      assert a + [sep] + b == a + [sep];
      assert Split(b, sep) == [""];
      assert Split(a + [sep], sep) == Split(a, sep) + [""];
    } else {
      var b', c := b[..|b| - 1], b[|b| - 1];
      assert b == b' + [c];
      assert a + [sep] + b == (a + [sep] + b') + [c];
      SplitAtSeparator(a, b', sep);
      SplitAtSeparatorStep(Split(a, sep), a + [sep] + b', b', c, sep);
    }
  }

  lemma SplitAtSeparatorStep(l: seq<string>, w: string, b: string, c: char, sep: char)
    requires Split(w, sep) == l + Split(b, sep)
    ensures Split(w + [c], sep) == l + Split(b + [c], sep)
  {
    var lr, r := Split(w, sep), Split(b, sep);
    if c != sep {
      assert Split(w + [c], sep) == lr[..|lr| - 1] + [lr[|lr| - 1] + [c]] by { SplitSnoc(w, c, sep); }
      assert Split(b + [c], sep) == r[..|r| - 1] + [r[|r| - 1] + [c]] by { SplitSnoc(b, c, sep); }
      ExtendLast(l, r, [c]);
    } else {
      assert Split(w + [c], sep) == lr + [""] by { SplitSnoc(w, c, sep); }
      assert Split(b + [c], sep) == r + [""] by { SplitSnoc(b, c, sep); }
      AppendAssoc(l, r, [""]);
    }
  }

  /** Extending the last piece of `l + r` extends the last piece of `r`. */
  lemma ExtendLast(l: seq<string>, r: seq<string>, x: string)
    requires r != []
    ensures var lr := l + r;
      lr[..|lr| - 1] + [lr[|lr| - 1] + x] == l + (r[..|r| - 1] + [r[|r| - 1] + x])
  {
    var lr := l + r;
    assert lr[..|lr| - 1] == l + r[..|r| - 1];
  }

  /** Splitting what was joined gives back the parts, provided none of
      them contains the separator (the source does no escaping). */
  lemma {:induction false} SplitJoin(parts: seq<string>, sep: char)
    requires |parts| >= 1
    requires forall i :: 0 <= i < |parts| ==> sep !in parts[i]
    ensures Split(Join(parts, sep), sep) == parts
    decreases |parts|
  {
    var last := parts[|parts| - 1];
    SplitNoSeparator(last, sep);
    if |parts| > 1 {
      var init := parts[..|parts| - 1];
      assert parts == init + [last];
      var j := Join(init, sep);
      assert Join(parts, sep) == j + [sep] + last;
      SplitJoin(init, sep);
      SplitAtSeparator(j, last, sep);
    }
  }

  function DigitChar(d: nat): (c: char)
    requires d < 10
    ensures '0' <= c <= '9'
    ensures c as int - '0' as int == d
  {
    ('0' as int + d) as char
  }

  /** Decimal rendering of a natural number, as `f"{n}"` gives it. */
  function Decimal(n: nat): (s: string)
    ensures |s| >= 1
    ensures forall i :: 0 <= i < |s| ==> '0' <= s[i] <= '9'
    ensures s[0] == '0' ==> n == 0 && s == "0"
  {
    if n < 10 then [DigitChar(n)] else Decimal(n / 10) + [DigitChar(n % 10)]
  }

  /** The number a string of decimal digits denotes. */
  function DigitsValue(s: string): nat
    requires forall i :: 0 <= i < |s| ==> '0' <= s[i] <= '9'
    decreases |s|
  {
    if s == [] then 0
    else DigitsValue(s[..|s| - 1]) * 10 + (s[|s| - 1] as int - '0' as int)
  }

  /** The rendering is faithful: reading the digits back gives the number. */
  lemma {:induction false} DecimalRoundTrip(n: nat)
    ensures DigitsValue(Decimal(n)) == n
  {
    if n >= 10 {
      DecimalRoundTrip(n / 10);
      var s := Decimal(n);
      assert s[..|s| - 1] == Decimal(n / 10);
    }
  }
}
