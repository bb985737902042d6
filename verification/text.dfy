/**
 * The string normaliser used to grade fill-in-the-blank answers:
 * trim, lower-case, then delete every whitespace run.
 *
 * Whitespace is the set that JavaScript's `String.prototype.trim` and the
 * regular-expression class `\s` share (ECMAScript WhiteSpace plus
 * LineTerminator). Lower-casing is modelled for ASCII letters only.
 */
module Text {
  import opened Wrappers

  /** ECMAScript WhiteSpace and LineTerminator code points. */
  predicate IsWhitespace(c: char) {
    || '\t' <= c <= '\r'            // tab, line feed, vertical tab, form feed, carriage return
    || c == ' '
    || c == '\U{00A0}'
    || c == '\U{1680}'
    || '\U{2000}' <= c <= '\U{200A}'
    || c == '\U{2028}' || c == '\U{2029}'
    || c == '\U{202F}' || c == '\U{205F}'
    || c == '\U{3000}' || c == '\U{FEFF}'
  }

  predicate IsUpper(c: char) {
    'A' <= c <= 'Z'
  }

  /** Lower-case mapping of one character (ASCII letters only). */
  function Lower(c: char): (d: char)
    ensures !IsUpper(d)
    ensures IsWhitespace(d) <==> IsWhitespace(c)
    ensures !IsUpper(c) ==> d == c
    ensures IsUpper(c) ==> 'a' <= d <= 'z' && d as int - 'a' as int == c as int - 'A' as int
  {
    if IsUpper(c) then (c as int + 32) as char else c
  }

  /** Drops leading whitespace. */
  function TrimStart(s: string): (r: string)
    ensures |r| <= |s| && r == s[|s| - |r|..]
    ensures forall k :: 0 <= k < |s| - |r| ==> IsWhitespace(s[k])
    ensures r == [] || !IsWhitespace(r[0])
  {
    if s == [] then s
    else if IsWhitespace(s[0]) then TrimStart(s[1..])
    else s
  }

  /** Drops trailing whitespace. */
  function TrimEnd(s: string): (r: string)
    ensures |r| <= |s| && r == s[..|r|]
    ensures forall k :: |r| <= k < |s| ==> IsWhitespace(s[k])
    ensures r == [] || !IsWhitespace(r[|r| - 1])
  {
    if s == [] then s
    else if IsWhitespace(s[|s| - 1]) then TrimEnd(s[..|s| - 1])
    else s
  }

  /** `String.prototype.trim`: drops only whitespace, and leaves none at either end. */
  function Trim(s: string): (r: string)
    ensures r == [] || (!IsWhitespace(r[0]) && !IsWhitespace(r[|r| - 1]))
    ensures var i := |s| - |TrimStart(s)|;
      && i + |r| <= |s| && r == s[i..i + |r|]
      && (forall k :: 0 <= k < i ==> IsWhitespace(s[k]))
      && (forall k :: i + |r| <= k < |s| ==> IsWhitespace(s[k]))
  {
    TrimEnd(TrimStart(s))
  }

  /** Trimming deletes whitespace only: the non-whitespace characters are kept, in order. */
  lemma TrimDropsOnlyWhitespace(s: string)
    ensures RemoveWhitespace(Trim(s)) == RemoveWhitespace(s)
  {
    TrimStartDropsBlank(s);
    TrimEndDropsBlank(TrimStart(s));
  }

  lemma TrimStartDropsBlank(s: string)
    ensures RemoveWhitespace(TrimStart(s)) == RemoveWhitespace(s)
  {
    var t := TrimStart(s);
    var p := s[..|s| - |t|];
    assert s == p + t;
    RemoveWhitespaceAppend(p, t);
    RemoveWhitespaceOfBlank(p);
  }

  lemma TrimEndDropsBlank(s: string)
    ensures RemoveWhitespace(TrimEnd(s)) == RemoveWhitespace(s)
  {
    var r := TrimEnd(s);
    var q := s[|r|..];
    assert s == r + q;
    RemoveWhitespaceAppend(r, q);
    RemoveWhitespaceOfBlank(q);
  }

  /** `String.prototype.toLowerCase`, character by character. */
  function ToLower(s: string): (r: string)
    ensures |r| == |s|
    ensures forall k :: 0 <= k < |s| ==> r[k] == Lower(s[k])
  {
    if s == [] then [] else [Lower(s[0])] + ToLower(s[1..])
  }

  /**
   * `replace(/\s+/g, "")`: deleting every whitespace run deletes every
   * whitespace character, keeping the others in order.
   */
  function RemoveWhitespace(s: string): (r: string)
    ensures |r| <= |s|
    ensures forall k :: 0 <= k < |r| ==> !IsWhitespace(r[k])
    ensures (forall k :: 0 <= k < |s| ==> !IsWhitespace(s[k])) ==> r == s
  {
    if s == [] then []
    else if IsWhitespace(s[0]) then RemoveWhitespace(s[1..])
    else [s[0]] + RemoveWhitespace(s[1..])
  }

  /** The fill-answer normaliser, in the order the source applies the steps. */
  function Norm(s: string): string {
    RemoveWhitespace(ToLower(Trim(s)))
  }

  /** The normaliser applied to a possibly missing value: `(s ?? "")` first. */
  function NormOpt(s: Option<string>): string {
    Norm(s.GetOr(""))
  }

  /**
   * Reference definition of what the normaliser keeps: the non-whitespace
   * characters of `s`, in order, each lower-cased.
   */
  function Canonical(s: string): (r: string)
    ensures forall k :: 0 <= k < |r| ==> !IsWhitespace(r[k]) && !IsUpper(r[k])
  {
    if s == [] then []
    else if IsWhitespace(s[0]) then Canonical(s[1..])
    else [Lower(s[0])] + Canonical(s[1..])
  }

  lemma {:induction false} RemoveWhitespaceAppend(a: string, b: string)
    ensures RemoveWhitespace(a + b) == RemoveWhitespace(a) + RemoveWhitespace(b)
    decreases |a|
  {
    if a != [] {
      assert (a + b)[0] == a[0];
      assert (a + b)[1..] == a[1..] + b;
      RemoveWhitespaceAppend(a[1..], b);
    } else {
      assert a + b == b;
    }
  }

  lemma {:induction false} RemoveWhitespaceOfBlank(s: string)
    requires forall k :: 0 <= k < |s| ==> IsWhitespace(s[k])
    ensures RemoveWhitespace(s) == []
    decreases |s|
  {
    if s != [] {
      RemoveWhitespaceOfBlank(s[1..]);
    }
  }

  /** Lower-casing then deleting whitespace is the reference `Canonical`. */
  lemma {:induction false} RemoveWhitespaceOfLower(s: string)
    ensures RemoveWhitespace(ToLower(s)) == Canonical(s)
    decreases |s|
  {
    if s != [] {
      assert ToLower(s)[1..] == ToLower(s[1..]);
      RemoveWhitespaceOfLower(s[1..]);
    }
  }

  /** The normaliser equals the reference definition: trimming first changes nothing. */
  lemma {:induction false} NormIsCanonical(s: string)
    ensures Norm(s) == Canonical(s)
  {
    var t := Trim(s);
    TrimDropsOnlyWhitespace(s);
    RemoveWhitespaceOfLower(t);
    RemoveWhitespaceOfLower(s);
    LowerThenStrip(t);
    LowerThenStrip(s);
  }

  /** The normal form holds no whitespace and no upper-case letter. */
  lemma NormIsClean(s: string)
    ensures forall k :: 0 <= k < |Norm(s)| ==> !IsWhitespace(Norm(s)[k]) && !IsUpper(Norm(s)[k])
  {
    NormIsCanonical(s);
  }

  /** A missing value normalises to the empty string. */
  lemma NormOptOfMissing()
    ensures NormOpt(None) == ""
  {
  }

  /** Deleting whitespace commutes with lower-casing. */
  lemma {:induction false} LowerThenStrip(s: string)
    ensures RemoveWhitespace(ToLower(s)) == ToLower(RemoveWhitespace(s))
    decreases |s|
  {
    if s != [] {
      assert ToLower(s)[1..] == ToLower(s[1..]);
      LowerThenStrip(s[1..]);
      if !IsWhitespace(s[0]) {
        assert ToLower([s[0]] + RemoveWhitespace(s[1..]))
            == [Lower(s[0])] + ToLower(RemoveWhitespace(s[1..]));
      }
    }
  }

  /** A string with no whitespace and no upper-case letter is its own canonical form. */
  lemma {:induction false} CanonicalOfCanonical(s: string)
    requires forall k :: 0 <= k < |s| ==> !IsWhitespace(s[k]) && !IsUpper(s[k])
    ensures Canonical(s) == s
    decreases |s|
  {
    if s != [] {
      CanonicalOfCanonical(s[1..]);
    }
  }

  /** Normalising twice is normalising once. */
  lemma {:induction false} NormIdempotent(s: string)
    ensures Norm(Norm(s)) == Norm(s)
  {
    NormIsClean(s);
    NormIsCanonical(Norm(s));
    CanonicalOfCanonical(Norm(s));
  }

  lemma {:induction false} CanonicalAppend(a: string, b: string)
    ensures Canonical(a + b) == Canonical(a) + Canonical(b)
    decreases |a|
  {
    if a == [] {
      assert a + b == b;
    } else {
      assert (a + b)[0] == a[0];
      assert (a + b)[1..] == a[1..] + b;
      CanonicalAppend(a[1..], b);
    }
  }

  /** Inserting a whitespace character anywhere does not change the normal form. */
  lemma NormIgnoresWhitespace(a: string, w: char, b: string)
    requires IsWhitespace(w)
    ensures Norm(a + [w] + b) == Norm(a + b)
  {
    NormIsCanonical(a + [w] + b);
    NormIsCanonical(a + b);
    CanonicalSkipsWhitespace(a, w, b);
  }

  lemma CanonicalSkipsWhitespace(a: string, w: char, b: string)
    requires IsWhitespace(w)
    ensures Canonical(a + [w] + b) == Canonical(a + b)
  {
    var t := [w] + b;
    assert t[0] == w && t[1..] == b;
    assert Canonical(t) == Canonical(b);
    assert a + [w] + b == a + t;
    CanonicalAppend(a, t);
    CanonicalAppend(a, b);
  }

  /** Strings that agree once lower-cased have the same normal form. */
  lemma {:induction false} NormIgnoresCase(s: string, t: string)
    requires ToLower(s) == ToLower(t)
    ensures Norm(s) == Norm(t)
  {
    NormIsCanonical(s);
    NormIsCanonical(t);
    RemoveWhitespaceOfLower(s);
    RemoveWhitespaceOfLower(t);
  }

  /** Fill example: capitals do not matter, "PARIS" matches the key "Paris". */
  lemma CanonicalCaseExample()
    ensures Canonical("PARIS") == Canonical("Paris")
  {
    assert Canonical("Paris") == "paris";
  }

  /** Fill example: surrounding and inner spaces do not matter. */
  lemma CanonicalSpaceExample()
    ensures Canonical("  paris ") == Canonical("Paris")
    ensures Canonical("pa ris") == Canonical("Paris")
  {
    assert Canonical("Paris") == "paris";
  }

  /** Fill example: a misspelling does not match. */
  lemma CanonicalMisspellingExample()
    ensures Canonical("parris") != Canonical("Paris")
  {
  }
}
