/** String helpers with ASCII semantics: `toLowerCase`, `trim`, the `[\s-]` strip of the page
    matcher, and the first dot-delimited segment of a key. */
module Text {

  /** ASCII whitespace: space, tab, line feed, vertical tab, form feed, carriage return. */
  predicate IsSpace(c: char)
  {
    c == ' ' || c == '\t' || c == '\n' || c == '\r' || c == '\U{B}' || c == '\U{C}'
  }

  function Lower(c: char): char
  {
    if 'A' <= c <= 'Z' then (c as int + 32) as char else c
  }

  /** `s.toLowerCase()` on ASCII letters. */
  function LowerStr(s: string): string
  {
    seq(|s|, i requires 0 <= i < |s| => Lower(s[i]))
  }

  /** The number of whitespace characters at the start of `s`. */
  function LeadingSpaces(s: string): (n: nat)
    ensures n <= |s|
  {
    if |s| > 0 && IsSpace(s[0]) then 1 + LeadingSpaces(s[1..]) else 0
  }

  /** The number of whitespace characters at the end of `s`. */
  function TrailingSpaces(s: string): (n: nat)
    ensures n <= |s|
  {
    if |s| > 0 && IsSpace(s[|s| - 1]) then 1 + TrailingSpaces(s[..|s| - 1]) else 0
  }

  function TrimStart(s: string): string
  {
    s[LeadingSpaces(s)..]
  }

  function TrimEnd(s: string): string
  {
    s[..|s| - TrailingSpaces(s)]
  }

  /** `s.trim()`. */
  function Trim(s: string): string
  {
    TrimEnd(TrimStart(s))
  }

  /** No whitespace at either end. */
  predicate IsTrimmed(s: string)
  {
    s == [] || (!IsSpace(s[0]) && !IsSpace(s[|s| - 1]))
  }

  predicate IsSpaceOrDash(c: char)
  {
    IsSpace(c) || c == '-'
  }

  /** `s.replace(/[\s-]/g, '')`. */
  function StripSpaceDash(s: string): string
  {
    if s == [] then [] else (if IsSpaceOrDash(s[0]) then [] else [s[0]]) + StripSpaceDash(s[1..])
  }

  /** `key.split('.')[0]`: everything before the first '.', or the whole key when it has none. */
  function FirstSegment(key: string): string
  {
    if key == [] || key[0] == '.' then [] else [key[0]] + FirstSegment(key[1..])
  }

  function StartsWith(s: string, prefix: string): bool
  {
    |prefix| <= |s| && s[..|prefix|] == prefix
  }

  /** Decimal digits of `n`, as a template literal prints it. */
  function DecimalText(n: nat): string
  {
    var digit := ['0' + (n % 10) as char];
    if n < 10 then digit else DecimalText(n / 10) + digit
  }

  /** The leading count covers whitespace only, and stops at the first other character. */
  lemma {:induction false} LeadingSpacesSpec(s: string)
    ensures forall k :: 0 <= k < LeadingSpaces(s) ==> IsSpace(s[k])
    ensures LeadingSpaces(s) < |s| ==> !IsSpace(s[LeadingSpaces(s)])
    decreases |s|
  {
    if |s| > 0 && IsSpace(s[0]) {
      LeadingSpacesSpec(s[1..]);
      forall k | 1 <= k < LeadingSpaces(s) ensures IsSpace(s[k]) {
        assert s[k] == s[1..][k - 1];
      }
    }
  }

  /** The trailing count covers whitespace only, and stops at the last other character. */
  lemma {:induction false} TrailingSpacesSpec(s: string)
    ensures forall k :: |s| - TrailingSpaces(s) <= k < |s| ==> IsSpace(s[k])
    ensures TrailingSpaces(s) < |s| ==> !IsSpace(s[|s| - TrailingSpaces(s) - 1])
    decreases |s|
  {
    if |s| > 0 && IsSpace(s[|s| - 1]) {
      var s' := s[..|s| - 1];
      TrailingSpacesSpec(s');
      forall k | |s| - TrailingSpaces(s) <= k < |s| - 1 ensures IsSpace(s[k]) {
        assert s[k] == s'[k];
      }
    }
  }

  /** `trim` leaves no whitespace at either end, and removes only whitespace: the result is a
      contiguous piece of the input with whitespace-only margins. */
  lemma TrimSpec(s: string)
    ensures IsTrimmed(Trim(s))
    ensures exists i, j :: 0 <= i <= j <= |s| && Trim(s) == s[i..j]
              && (forall k :: 0 <= k < i ==> IsSpace(s[k])) && (forall k :: j <= k < |s| ==> IsSpace(s[k]))
  {
    var i := LeadingSpaces(s);
    var t := s[i..];
    LeadingSpacesSpec(s);
    TrailingSpacesSpec(t);
    var j := i + |t| - TrailingSpaces(t);
    assert Trim(s) == s[i..j];
    forall k | j <= k < |s| ensures IsSpace(s[k]) {
      assert s[k] == t[k - i];
    }
    if |Trim(s)| > 0 {
      assert Trim(s)[0] == t[0];
      assert Trim(s)[|Trim(s)| - 1] == t[|t| - TrailingSpaces(t) - 1];
    }
  }

  /** Whitespace only: the strip leaves nothing. */
  lemma {:induction false} StripAllSpace(s: string)
    requires forall k :: 0 <= k < |s| ==> IsSpace(s[k])
    ensures StripSpaceDash(s) == []
    decreases |s|
  {
    if s != [] {
      StripAllSpace(s[1..]);
    }
  }

  lemma {:induction false} StripAppend(a: string, b: string)
    ensures StripSpaceDash(a + b) == StripSpaceDash(a) + StripSpaceDash(b)
    decreases |a|
  {
    if a == [] {
      assert a + b == b;
    } else {
      assert (a + b)[1..] == a[1..] + b;
      StripAppend(a[1..], b);
    }
  }

  lemma StripTrimStart(s: string)
    ensures StripSpaceDash(TrimStart(s)) == StripSpaceDash(s)
  {
    var i := LeadingSpaces(s);
    LeadingSpacesSpec(s);
    assert s == s[..i] + s[i..];
    StripAppend(s[..i], s[i..]);
    StripAllSpace(s[..i]);
  }

  lemma StripTrimEnd(s: string)
    ensures StripSpaceDash(TrimEnd(s)) == StripSpaceDash(s)
  {
    var j := |s| - TrailingSpaces(s);
    TrailingSpacesSpec(s);
    assert s == s[..j] + s[j..];
    StripAppend(s[..j], s[j..]);
    StripAllSpace(s[j..]);
  }

  /** Stripping whitespace and dashes makes a preceding `trim` irrelevant. */
  lemma StripTrim(s: string)
    ensures StripSpaceDash(Trim(s)) == StripSpaceDash(s)
  {
    StripTrimEnd(TrimStart(s));
    StripTrimStart(s);
  }

  /** The first segment is a prefix of the key with no '.' in it, followed by the first '.'
      when the key has one. */
  lemma {:induction false} FirstSegmentSpec(key: string)
    ensures |FirstSegment(key)| <= |key| && FirstSegment(key) == key[..|FirstSegment(key)|]
    ensures '.' !in FirstSegment(key)
    ensures '.' in key ==> |FirstSegment(key)| < |key| && key[|FirstSegment(key)|] == '.'
    ensures '.' !in key ==> FirstSegment(key) == key
    decreases |key|
  {
    if key != [] && key[0] != '.' {
      FirstSegmentSpec(key[1..]);
      assert '.' in key ==> '.' in key[1..];
    }
  }

  /** Lower-casing keeps the length and never creates or removes a '.', a space or a dash. */
  lemma LowerStrKeeps(s: string)
    ensures |LowerStr(s)| == |s|
    ensures ('.' in LowerStr(s)) <==> ('.' in s)
    ensures forall i :: 0 <= i < |s| ==> (IsSpaceOrDash(LowerStr(s)[i]) <==> IsSpaceOrDash(s[i]))
  {
    var l := LowerStr(s);
    if '.' in s {
      var i :| 0 <= i < |s| && s[i] == '.';
      assert l[i] == '.';
    }
    if '.' in l {
      var i :| 0 <= i < |l| && l[i] == '.';
      assert s[i] == '.';
    }
  }

  /** A string without whitespace or dashes is left as it is by the strip. */
  lemma {:induction false} StripIdentity(s: string)
    requires forall i :: 0 <= i < |s| ==> !IsSpaceOrDash(s[i])
    ensures StripSpaceDash(s) == s
    decreases |s|
  {
    if s != [] {
      StripIdentity(s[1..]);
    }
  }
}
