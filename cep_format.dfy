/** The postal-code (CEP) input normaliser `formatCep` of App.js, as pure
    functions over strings, and what it guarantees about its output. */
module CepFormat {
  import opened Outcomes

  /** `\d` of a JavaScript regular expression without the `u` flag. */
  predicate IsDigit(c: char) {
    '0' <= c <= '9'
  }

  predicate AllDigits(s: string) {
    forall i :: 0 <= i < |s| ==> IsDigit(s[i])
  }

  /** The shape of every normalised CEP: digits only, except that index 5
      may hold a hyphen (so there is at most one hyphen). */
  predicate WellFormed(r: string) {
    forall i :: 0 <= i < |r| ==> IsDigit(r[i]) || (r[i] == '-' && i == 5)
  }

  /** `text.replace(/[^\d]/g, '')`: every non-digit removed, the digits kept
      in their order. */
  function StripNonDigits(s: string): (r: string)
    ensures AllDigits(r) && |r| <= |s|
  {
    if s == [] then []
    else if IsDigit(s[0]) then [s[0]] + StripNonDigits(s[1..])
    else StripNonDigits(s[1..])
  }

  /** The string with every '-' removed. */
  function RemoveHyphens(s: string): (r: string)
    ensures '-' !in r && |r| <= |s|
  {
    if s == [] then []
    else if s[0] == '-' then RemoveHyphens(s[1..])
    else [s[0]] + RemoveHyphens(s[1..])
  }

  /** Five digits start at index `j` of `s`: the regex group `(\d{5})` can
      match there. */
  predicate DigitRunAt(s: string, j: nat) {
    j + 5 <= |s| && AllDigits(s[j..j + 5])
  }

  /** Where the leftmost match of `/(\d{5})(\d{0,3})/` starts when the search
      begins at `from`: the first index holding five digits in a row. */
  function MatchFrom(s: string, from: nat): (r: Option<nat>)
    requires from <= |s|
    decreases |s| - from
    ensures r.Some? ==> from <= r.value && DigitRunAt(s, r.value)
    ensures r.Some? ==> forall j :: from <= j < r.value ==> !DigitRunAt(s, j)
    ensures r.None? ==> forall j :: from <= j ==> !DigitRunAt(s, j)
  {
    if from + 5 > |s| then None
    else if DigitRunAt(s, from) then Some(from)
    else MatchFrom(s, from + 1)
  }

  /** The greedy `\d{0,max}`: how many digits (at most `max`) follow `start`. */
  function LeadingDigits(s: string, start: nat, max: nat): (k: nat)
    requires start <= |s|
    decreases max
    ensures k <= max && start + k <= |s| && AllDigits(s[start..start + k])
    ensures k < max && start + k < |s| ==> !IsDigit(s[start + k])
  {
    if max == 0 || start == |s| || !IsDigit(s[start]) then 0
    else
      var k := 1 + LeadingDigits(s, start + 1, max - 1);
      assert forall i :: start + 1 <= i < start + k ==> IsDigit(s[i]) by {
        assert AllDigits(s[start + 1..start + k]);
        forall i | start + 1 <= i < start + k ensures IsDigit(s[i]) {
          assert s[i] == s[start + 1..start + k][i - start - 1];
        }
      }
      k
  }

  /** `s.replace(/(\d{5})(\d{0,3})/, '$1-$2')`: only the leftmost match is
      replaced (no `g` flag); both groups are written back with a hyphen
      between them, so the effect is a hyphen after that match's fifth
      digit, whatever group 2 captured. */
  function ReplaceFirst(s: string): (r: string)
    ensures MatchFrom(s, 0).None? ==> r == s
    ensures MatchFrom(s, 0).Some? ==>
      var i := MatchFrom(s, 0).value; r == s[..i + 5] + "-" + s[i + 5..]
  {
    match MatchFrom(s, 0)
    case None => s
    case Some(i) =>
      var k := LeadingDigits(s, i + 5, 3);
      assert s[..i] + s[i..i + 5] == s[..i + 5];
      assert s[i + 5..i + 5 + k] + s[i + 5 + k..] == s[i + 5..];
      s[..i] + s[i..i + 5] + "-" + s[i + 5..i + 5 + k] + s[i + 5 + k..]
  }

  /** `formatCep(text)`: the value written to both `cep` and `formattedCep`.
      A hyphen follows the fifth digit as soon as there are five digits, and
      digits past the eighth are kept. */
  function Format(text: string): (r: string)
    ensures var d := StripNonDigits(text);
      r == if |d| >= 5 then d[..5] + "-" + d[5..] else d
  {
    var d := StripNonDigits(text);
    assert |d| >= 5 ==> DigitRunAt(d, 0);
    ReplaceFirst(d)
  }

  /** The filter keeps every digit as often as it occurs, and nothing else. */
  lemma {:induction false} StripKeepsDigitCounts(s: string)
    ensures forall c :: multiset(StripNonDigits(s))[c] == if IsDigit(c) then multiset(s)[c] else 0
  {
    if s != [] {
      StripKeepsDigitCounts(s[1..]);
      assert s == [s[0]] + s[1..];
      assert multiset(s) == multiset([s[0]]) + multiset(s[1..]);
    }
  }

  lemma {:induction false} StripAppend(a: string, b: string)
    ensures StripNonDigits(a + b) == StripNonDigits(a) + StripNonDigits(b)
  {
    if a == [] {
      assert a + b == b;
    } else {
      assert (a + b)[1..] == a[1..] + b;
      StripAppend(a[1..], b);
    }
  }

  lemma {:induction false} StripOfDigits(s: string)
    requires AllDigits(s)
    ensures StripNonDigits(s) == s
  {
    if s != [] {
      StripOfDigits(s[1..]);
    }
  }

  lemma {:induction false} RemoveHyphensAppend(a: string, b: string)
    ensures RemoveHyphens(a + b) == RemoveHyphens(a) + RemoveHyphens(b)
  {
    if a == [] {
      assert a + b == b;
    } else {
      assert (a + b)[1..] == a[1..] + b;
      RemoveHyphensAppend(a[1..], b);
    }
  }

  lemma {:induction false} RemoveHyphensOfDigits(s: string)
    requires AllDigits(s)
    ensures RemoveHyphens(s) == s
  {
    if s != [] {
      RemoveHyphensOfDigits(s[1..]);
    }
  }

  lemma RemoveHyphensAroundHyphen(p: string, q: string)
    requires AllDigits(p) && AllDigits(q)
    ensures RemoveHyphens(p + "-" + q) == p + q
  {
    assert RemoveHyphens("-") == [];
    RemoveHyphensAppend(p, "-");
    RemoveHyphensOfDigits(p);
    assert RemoveHyphens(p + "-") == p;
    RemoveHyphensAppend(p + "-", q);
    RemoveHyphensOfDigits(q);
  }

  lemma StripAroundHyphen(p: string, q: string)
    requires AllDigits(p) && AllDigits(q)
    ensures StripNonDigits(p + "-" + q) == p + q
  {
    assert StripNonDigits("-") == [];
    StripAppend(p, "-");
    StripOfDigits(p);
    assert StripNonDigits(p + "-") == p;
    StripAppend(p + "-", q);
    StripOfDigits(q);
  }

  /** Every output has the normalised shape: only digits and '-', and a '-'
      only at index 5, so never more than one. */
  lemma FormatShape(text: string)
    ensures WellFormed(Format(text))
    ensures multiset(Format(text))['-'] <= 1
  {
    var d, r := StripNonDigits(text), Format(text);
    assert '-' !in d;
    if |d| >= 5 {
      var p, q := d[..5], d[5..];
      assert r == p + "-" + q;
      forall i | 0 <= i < |r| ensures IsDigit(r[i]) || (r[i] == '-' && i == 5) {
        if i < 5 {
          assert r[i] == p[i];
        } else if i > 5 {
          assert r[i] == q[i - 6];
        }
      }
      assert '-' !in p && '-' !in q;
      assert multiset(r) == multiset(p) + multiset("-") + multiset(q);
    }
  }

  /** No digit is lost or reordered: dropping the hyphen gives back exactly
      the input's digits, however many there are; the digits of the output
      are those of the input. */
  lemma FormatKeepsDigits(text: string)
    ensures RemoveHyphens(Format(text)) == StripNonDigits(text)
    ensures StripNonDigits(Format(text)) == StripNonDigits(text)
  {
    var d := StripNonDigits(text);
    if |d| >= 5 {
      RemoveHyphensAroundHyphen(d[..5], d[5..]);
      StripAroundHyphen(d[..5], d[5..]);
      assert d[..5] + d[5..] == d;
    } else {
      RemoveHyphensOfDigits(d);
      StripOfDigits(d);
    }
  }

  /** A hyphen is inserted exactly when the input holds at least five
      digits; five digits give a trailing hyphen, fewer are returned as they
      are, and no digits give the empty string. */
  lemma FormatHyphenRule(text: string)
    ensures var d := StripNonDigits(text);
      && ('-' in Format(text) <==> |d| >= 5)
      && (|d| >= 5 ==> Format(text)[5] == '-')
      && (|d| == 5 ==> Format(text) == d + "-")
      && (|d| < 5 ==> Format(text) == d)
      && (d == [] ==> Format(text) == "")
      && |Format(text)| == |d| + (if |d| >= 5 then 1 else 0)
  {
  }

  /** Normalising a normalised CEP changes nothing. */
  lemma FormatIdempotent(text: string)
    ensures Format(Format(text)) == Format(text)
  {
    FormatKeepsDigits(text);
  }

  /** With exactly five digits the field shows "ddddd-"; erasing the hyphen
      hands "ddddd" back to `formatCep`, which puts the hyphen back, so a
      single backspace leaves the field as it was. */
  lemma BackspaceRestoresHyphen(text: string)
    requires |StripNonDigits(text)| == 5
    ensures |Format(text)| == 6 && Format(text)[5] == '-'
    ensures Format(Format(text)[..5]) == Format(text)
  {
    var d := StripNonDigits(text);
    FormatHyphenRule(text);
    assert Format(text)[..5] == d;
    StripOfDigits(d);
  }

  /** A full CEP typed with its hyphen is left as it is. */
  lemma SampleFullCep()
    ensures Format("01310-100") == "01310-100"
  {
    assert StripNonDigits("01310-100") == "01310100";
    assert "01310100"[..5] + "-" + "01310100"[5..] == "01310-100";
  }

  /** Five digits get a trailing hyphen, whatever else was typed. */
  lemma SampleFiveDigits()
    ensures Format("12.345") == "12345-"
  {
    assert StripNonDigits("345") == "345";
    assert StripNonDigits("12.345") == "12345";
  }

  /** A ninth digit is kept after the hyphen, not cut off. */
  lemma SampleNineDigits()
    ensures Format("123456789") == "12345-6789"
  {
    assert StripNonDigits("123456789") == "123456789";
    assert "123456789"[..5] + "-" + "123456789"[5..] == "12345-6789";
  }
}
