/** The price field's input filter (`PriceInput.handleChange`): every character
    other than an ASCII digit or `.` is dropped, and of the remaining dots only
    the first is kept. The filter is written as the component does it, with
    `split('.')` and `join('')`, and proved equal to a direct one-pass reading. */
module PriceInput {
  import opened Common

  predicate IsPriceChar(c: char) {
    IsDigit(c) || c == '.'
  }

  /** `text.replace(/[^0-9.]/g, '')`. */
  function Clean(s: string): (r: string)
    ensures forall i :: 0 <= i < |r| ==> IsPriceChar(r[i])
    ensures forall i :: 0 <= i < |s| && IsPriceChar(s[i]) ==> s[i] in r
    ensures forall c :: c in r ==> c in s
    ensures (forall i :: 0 <= i < |s| ==> IsPriceChar(s[i])) ==> r == s
  {
    if s == [] then []
    else (if IsPriceChar(s[0]) then [s[0]] else []) + Clean(s[1..])
  }

  function CountDots(s: string): nat {
    if s == [] then 0 else (if s[0] == '.' then 1 else 0) + CountDots(s[1..])
  }

  /** `s.split(sep)`: the pieces between separators, always at least one. */
  function Split(s: string, sep: char): (parts: seq<string>)
    ensures |parts| >= 1
    ensures forall i :: 0 <= i < |parts| ==> sep !in parts[i]
  {
    if s == [] then [""]
    else
      var rest := Split(s[1..], sep);
      if s[0] == sep then [""] + rest
      else [[s[0]] + rest[0]] + rest[1..]
  }

  /** `parts.join('')`. */
  function Concat(parts: seq<string>): string {
    if parts == [] then "" else parts[0] + Concat(parts[1..])
  }

  /** The characters of `s` other than dots, in order. */
  function DropDots(s: string): (r: string)
    ensures '.' !in r
    ensures |r| + CountDots(s) == |s|
  {
    if s == [] then []
    else (if s[0] == '.' then [] else [s[0]]) + DropDots(s[1..])
  }

  /** The component's filter, as written: split on dots and, when there are two
      dots or more, join the pieces after the first one. It is the one-pass
      filter applied to the cleaned text. */
  function Sanitize(text: string): (r: string)
    ensures r == KeepFirstDot(Clean(text))
  {
    var cleaned := Clean(text);
    var parts := Split(cleaned, '.');
    SplitCount(cleaned);
    if |parts| > 2 then
      SplitKeepsFirst(cleaned);
      parts[0] + "." + Concat(parts[1..])
    else
      KeepFirstDotIdentity(cleaned);
      cleaned
  }

  /** A one-pass reading of the same filter: copy characters, keeping the first
      dot and dropping every later one. */
  function KeepFirstDot(s: string): (r: string)
    ensures CountDots(r) == if CountDots(s) == 0 then 0 else 1
    ensures DropDots(r) == DropDots(s)
  {
    if s == [] then []
    else if s[0] == '.' then
      var tail := DropDots(s[1..]);
      NoDotsCount(tail);
      NoDotsDrop(tail);
      "." + tail
    else [s[0]] + KeepFirstDot(s[1..])
  }

  lemma {:induction false} NoDotsCount(s: string)
    requires '.' !in s
    ensures CountDots(s) == 0
  {
    if s != [] {
      assert s[0] != '.';
      NoDotsCount(s[1..]);
    }
  }

  lemma {:induction false} NoDotsDrop(s: string)
    requires '.' !in s
    ensures DropDots(s) == s
  {
    if s != [] {
      assert s[0] != '.';
      NoDotsDrop(s[1..]);
    }
  }

  // ---------------------------------------------------------------------------
  // split and join, piece by piece

  lemma {:induction false} SplitCount(s: string)
    ensures |Split(s, '.')| == CountDots(s) + 1
  {
    if s != [] {
      SplitCount(s[1..]);
    }
  }

  lemma {:induction false} ConcatSplit(s: string)
    ensures Concat(Split(s, '.')) == DropDots(s)
  {
    if s != [] {
      ConcatSplit(s[1..]);
      var rest := Split(s[1..], '.');
      if s[0] != '.' {
        assert rest == [rest[0]] + rest[1..];
        assert Concat(rest) == rest[0] + Concat(rest[1..]);
        var parts := Split(s, '.');
        assert parts[1..] == rest[1..];
        assert Concat(parts) == ([s[0]] + rest[0]) + Concat(rest[1..]);
      }
    }
  }

  /** The pieces after the first reassemble, without their separators, into the
      one-pass filter's output. */
  lemma {:induction false} SplitKeepsFirst(s: string)
    requires CountDots(s) >= 1
    ensures var parts := Split(s, '.');
      parts[0] + "." + Concat(parts[1..]) == KeepFirstDot(s)
  {
    var parts := Split(s, '.');
    var rest := Split(s[1..], '.');
    if s[0] == '.' {
      ConcatSplit(s[1..]);
      assert parts[1..] == rest;
    } else {
      SplitKeepsFirst(s[1..]);
      assert parts[0] == [s[0]] + rest[0];
      assert parts[1..] == rest[1..];
    }
  }

  /** With at most one dot the one-pass filter changes nothing. */
  lemma {:induction false} KeepFirstDotIdentity(s: string)
    requires CountDots(s) <= 1
    ensures KeepFirstDot(s) == s
  {
    if s != [] {
      if s[0] == '.' {
        NoDotsWhenCountZero(s[1..]);
        NoDotsDrop(s[1..]);
      } else {
        KeepFirstDotIdentity(s[1..]);
      }
    }
  }

  lemma {:induction false} NoDotsWhenCountZero(s: string)
    requires CountDots(s) == 0
    ensures '.' !in s
  {
    if s != [] {
      NoDotsWhenCountZero(s[1..]);
      assert s == [s[0]] + s[1..];
    }
  }

  // ---------------------------------------------------------------------------
  // What the filter promises

  /** Only digits and dots, at most one dot, and the input's digits in their
      order. */
  lemma SanitizeProperties(text: string)
    ensures var out := Sanitize(text);
      && (forall i :: 0 <= i < |out| ==> IsPriceChar(out[i]))
      && CountDots(out) <= 1
      && DropDots(out) == DropDots(Clean(text))
  {
    KeepFirstDotChars(Clean(text));
  }

  lemma {:induction false} KeepFirstDotChars(s: string)
    requires forall i :: 0 <= i < |s| ==> IsPriceChar(s[i])
    ensures forall i :: 0 <= i < |KeepFirstDot(s)| ==> IsPriceChar(KeepFirstDot(s)[i])
  {
    if s != [] {
      if s[0] == '.' {
        DropDotsChars(s[1..]);
      } else {
        KeepFirstDotChars(s[1..]);
      }
    }
  }

  lemma {:induction false} DropDotsChars(s: string)
    requires forall i :: 0 <= i < |s| ==> IsPriceChar(s[i])
    ensures forall i :: 0 <= i < |DropDots(s)| ==> IsDigit(DropDots(s)[i])
  {
    if s != [] {
      DropDotsChars(s[1..]);
    }
  }

  /** The digits that survive are exactly the input's ASCII digits, in order. */
  function Digits(s: string): (r: string)
    ensures AllDigits(r)
  {
    if s == [] then [] else (if IsDigit(s[0]) then [s[0]] else []) + Digits(s[1..])
  }

  lemma {:induction false} DropDotsOfClean(s: string)
    ensures DropDots(Clean(s)) == Digits(s)
  {
    if s != [] {
      DropDotsOfClean(s[1..]);
      assert Clean(s) == (if IsPriceChar(s[0]) then [s[0]] else []) + Clean(s[1..]);
      DropDotsAppend(if IsPriceChar(s[0]) then [s[0]] else [], Clean(s[1..]));
    }
  }

  lemma {:induction false} DropDotsAppend(a: string, b: string)
    ensures DropDots(a + b) == DropDots(a) + DropDots(b)
  {
    if a == [] {
      assert a + b == b;
    } else {
      assert (a + b)[0] == a[0];
      assert (a + b)[1..] == a[1..] + b;
      DropDotsAppend(a[1..], b);
    }
  }

  lemma SanitizeKeepsDigits(text: string)
    ensures Digits(Sanitize(text)) == Digits(text)
  {
    SanitizeProperties(text);
    DropDotsOfClean(text);
    var out := Sanitize(text);
    CleanIdentity(out);
    DropDotsOfClean(out);
  }

  lemma CleanIdentity(s: string)
    requires forall i :: 0 <= i < |s| ==> IsPriceChar(s[i])
    ensures Clean(s) == s
  {
  }

  /** Filtering an already filtered value returns it unchanged. */
  lemma SanitizeIdempotent(text: string)
    ensures Sanitize(Sanitize(text)) == Sanitize(text)
  {
    var out := Sanitize(text);
    SanitizeProperties(text);
    CleanIdentity(out);
    KeepFirstDotIdentity(out);
  }
}
