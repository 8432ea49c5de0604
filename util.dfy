/**
  The helpers of the user app: the e-mail normaliser and the mail-sending
  interface. Python's `str.strip`, `str.rsplit('@', 1)` and `str.lower` are
  defined here over ASCII, as the normaliser needs them.
 */
module Util {
  import opened Outcomes

  /** Python's `str.isspace` on ASCII: tab, line feed, vertical tab, form feed,
      carriage return, the separators 0x1C-0x1F and the space. */
  predicate IsSpace(c: char) {
    9 <= c as int <= 13 || 28 <= c as int <= 32
  }

  /** `s[lo:hi].strip()`, by moving the two ends inwards past whitespace. */
  function StripRange(s: string, lo: nat, hi: nat): (r: string)
    requires lo <= hi <= |s|
    ensures |r| <= hi - lo
    ensures r == [] || (!IsSpace(r[0]) && !IsSpace(r[|r| - 1]))
    decreases hi - lo
  {
    if lo < hi && IsSpace(s[lo]) then StripRange(s, lo + 1, hi)
    else if lo < hi && IsSpace(s[hi - 1]) then StripRange(s, lo, hi - 1)
    else s[lo..hi]
  }

  /** `s.strip()`: drops leading and trailing whitespace. */
  function Strip(s: string): (r: string)
    ensures |r| <= |s|
    ensures r == [] || (!IsSpace(r[0]) && !IsSpace(r[|r| - 1]))
  {
    StripRange(s, 0, |s|)
  }

  /** The stripped range is a slice `s[a..b]` of it, everything cut off on
      either side being whitespace. */
  lemma {:induction false} StripRangeIsSlice(s: string, lo: nat, hi: nat) returns (a: nat, b: nat)
    requires lo <= hi <= |s|
    ensures lo <= a <= b <= hi && StripRange(s, lo, hi) == s[a..b]
    ensures forall i | lo <= i < a :: IsSpace(s[i])
    ensures forall i | b <= i < hi :: IsSpace(s[i])
    decreases hi - lo
  {
    if lo < hi && IsSpace(s[lo]) {
      a, b := StripRangeIsSlice(s, lo + 1, hi);
    } else if lo < hi && IsSpace(s[hi - 1]) {
      a, b := StripRangeIsSlice(s, lo, hi - 1);
    } else {
      a, b := lo, hi;
    }
  }

  /** The stripped string is a slice `s[a..b]` of the input, everything cut
      off on either side being whitespace. */
  lemma StripIsSlice(s: string) returns (a: nat, b: nat)
    ensures a <= b <= |s| && Strip(s) == s[a..b]
    ensures forall i | 0 <= i < a :: IsSpace(s[i])
    ensures forall i | b <= i < |s| :: IsSpace(s[i])
  {
    a, b := StripRangeIsSlice(s, 0, |s|);
  }

  /** Stripping a string that does not start or end with whitespace returns it. */
  lemma StripOfTrimmed(s: string)
    requires s == [] || (!IsSpace(s[0]) && !IsSpace(s[|s| - 1]))
    ensures Strip(s) == s
  {
  }

  /** Stripping removes whitespace only, so any other character it finds
      stays. */
  lemma StripKeepsNonSpace(s: string, c: char)
    requires !IsSpace(c) && c in s
    ensures c in Strip(s)
  {
    var a, b := StripIsSlice(s);
    var i :| 0 <= i < |s| && s[i] == c;
    assert a <= i < b;
    assert Strip(s)[i - a] == c;
  }

  /** Stripping removes whitespace only, so the number of '@' is kept. */
  lemma StripKeepsAts(s: string)
    ensures multiset(Strip(s))['@'] == multiset(s)['@']
  {
    var a, b := StripIsSlice(s);
    var left, right := s[..a], s[b..];
    assert s == left + s[a..b] + right;
    assert '@' !in left by {
      forall i | 0 <= i < |left| ensures left[i] != '@' { assert IsSpace(s[i]); }
    }
    assert '@' !in right by {
      forall i | 0 <= i < |right| ensures right[i] != '@' { assert IsSpace(s[b + i]); }
    }
    assert multiset(s) == multiset(left) + multiset(s[a..b]) + multiset(right);
  }

  /** `s.rsplit('@', 1)` unpacked into two names: None when `s` holds no '@'
      (the unpacking raises ValueError), otherwise the text before the LAST
      '@' and the text after it. */
  function RSplitAt(s: string): (r: Option<(string, string)>)
    ensures r.None? <==> '@' !in s
    ensures r.Some? ==> s == r.value.0 + "@" + r.value.1 && '@' !in r.value.1
  {
    if |s| == 0 then None
    else if s[|s| - 1] == '@' then Some((s[..|s| - 1], ""))
    else
      match RSplitAt(s[..|s| - 1])
      case None => None
      case Some((front, back)) =>
        assert s == s[..|s| - 1] + [s[|s| - 1]];
        Some((front, back + [s[|s| - 1]]))
  }

  /** The split point is unique: an '@' followed by no other '@' is the one
      `RSplitAt` splits at. */
  lemma {:induction false} RSplitAtUnique(s: string, front: string, back: string)
    requires s == front + "@" + back && '@' !in back
    ensures RSplitAt(s) == Some((front, back))
  {
    if back == [] {
      assert s[..|s| - 1] == front;
    } else {
      var n := |s| - 1;
      var back' := back[..|back| - 1];
      assert s[..n] == front + "@" + back';
      assert back == back' + [back[|back| - 1]];
      RSplitAtUnique(s[..n], front, back');
    }
  }

  /** `c.lower()` on ASCII: upper-case letters map to lower case, everything
      else is kept. */
  function LowerChar(c: char): (r: char)
    ensures (r == '@') <==> (c == '@')
    ensures !IsSpace(c) ==> !IsSpace(r)
    ensures 'A' <= c <= 'Z' ==> r as int == c as int + 32
    ensures !('A' <= c <= 'Z') ==> r == c
  {
    if 'A' <= c <= 'Z' then (c as int + 32) as char else c
  }

  /** `s.lower()`, character by character. */
  function Lower(s: string): (r: string)
    ensures |r| == |s|
    ensures forall i | 0 <= i < |s| :: r[i] == LowerChar(s[i])
  {
    if s == [] then [] else [LowerChar(s[0])] + Lower(s[1..])
  }

  /** Lower-casing twice is lower-casing once; it adds and removes no '@'. */
  lemma LowerFacts(s: string)
    ensures Lower(Lower(s)) == Lower(s)
    ensures ('@' in Lower(s)) <==> ('@' in s)
  {
    assert forall i | 0 <= i < |s| :: Lower(Lower(s))[i] == Lower(s)[i];
    if '@' in Lower(s) {
      var i :| 0 <= i < |s| && Lower(s)[i] == '@';
      assert s[i] == '@';
    }
    if '@' in s {
      var i :| 0 <= i < |s| && s[i] == '@';
      assert Lower(s)[i] == '@';
    }
  }

  /** `email or ''` */
  function OrEmpty(email: Option<string>): string {
    email.GetOr("")
  }

  /** `Util.normalize_email`: strips the address, splits it at its last '@'
      and lower-cases the domain part only. Without an '@' the address comes
      back exactly as given, not even stripped. */
  function NormalizeEmail(email: Option<string>): (r: string)
    ensures |r| <= |OrEmpty(email)|
  {
    var e := OrEmpty(email);
    match RSplitAt(Strip(e))
    case None => e
    case Some((name, domain)) => name + "@" + Lower(domain)
  }

  /** A character missing from a string is missing from every slice of it. */
  lemma SliceLacks(s: string, a: nat, b: nat, c: char)
    requires a <= b <= |s| && c !in s
    ensures c !in s[a..b]
  {
    forall i | 0 <= i < b - a ensures s[a..b][i] != c {
      assert s[a..b][i] == s[a + i];
    }
  }

  /** Lower-casing brings in no character but lower-case letters. */
  lemma LowerAddsNoSymbol(s: string, c: char)
    requires !('A' <= c <= 'Z') && !('a' <= c <= 'z') && c !in s
    ensures c !in Lower(s)
  {
    forall i | 0 <= i < |s| ensures Lower(s)[i] != c {
      assert s[i] != c;
    }
  }

  /** Normalising brings in no character but lower-case letters: any other
      character occurs in the result only if it occurs in the input. */
  lemma NormalizeAddsNoSymbol(email: Option<string>, c: char)
    requires !('A' <= c <= 'Z') && !('a' <= c <= 'z') && c !in OrEmpty(email)
    ensures c !in NormalizeEmail(email)
  {
    var s := OrEmpty(email);
    if '@' in s {
      var k := NormalizeSplitsAtLastAt(s);
      var a, b := StripIsSlice(s);
      var t := Strip(s);
      SliceLacks(s, a, b, c);
      SliceLacks(t, 0, k, c);
      SliceLacks(t, k + 1, |t|, c);
      LowerAddsNoSymbol(t[k + 1..], c);
      assert NormalizeEmail(email) == t[..k] + "@" + Lower(t[k + 1..]);
    } else {
      NormalizeWithoutAt(s);
      assert NormalizeEmail(email) == s;
    }
  }

  /** `None` and the empty string both normalise to the empty string. */
  lemma NormalizeEmpty()
    ensures NormalizeEmail(None) == ""
    ensures NormalizeEmail(Some("")) == ""
  {
    assert Strip("") == "";
  }

  /** Without an '@' the input is returned as given (not stripped). */
  lemma NormalizeWithoutAt(s: string)
    requires '@' !in s
    ensures NormalizeEmail(Some(s)) == s
  {
    StripKeepsAts(s);
    assert '@' !in multiset(Strip(s));
  }

  /** With an '@', the stripped address is split at its last '@', at index
      `k`: the part before it is kept character for character, the part after
      it (which holds no '@') is lower-cased. */
  lemma NormalizeSplitsAtLastAt(s: string) returns (k: nat)
    requires '@' in s
    ensures k < |Strip(s)| && Strip(s)[k] == '@' && '@' !in Strip(s)[k + 1..]
    ensures NormalizeEmail(Some(s)) == Strip(s)[..k] + "@" + Lower(Strip(s)[k + 1..])
  {
    var t := Strip(s);
    StripKeepsAts(s);
    assert '@' in multiset(s);
    var split := RSplitAt(t);
    var name, domain := split.value.0, split.value.1;
    k := |name|;
    assert t[..k] == name && t[k] == '@' && t[k + 1..] == domain;
  }

  /** An address with no surrounding whitespace normalises to its text
      before the last '@', the '@', and its lower-cased domain. */
  lemma NormalizeStrippedSplit(s: string, name: string, domain: string)
    requires Strip(s) == s && s == name + "@" + domain && '@' !in domain
    ensures NormalizeEmail(Some(s)) == name + "@" + Lower(domain)
  {
    RSplitAtUnique(s, name, domain);
  }

  /** With an '@', no leading or trailing whitespace is left in the result. */
  lemma NormalizeIsStripped(s: string)
    requires '@' in s
    ensures var r := NormalizeEmail(Some(s));
      r != [] && !IsSpace(r[0]) && !IsSpace(r[|r| - 1]) && Strip(r) == r
  {
    var t := Strip(s);
    StripKeepsAts(s);
    assert '@' in multiset(s);
    assert '@' in t by {
      assert '@' in multiset(t);
    }
    var name, domain := RSplitAt(t).value.0, RSplitAt(t).value.1;
    var r := name + "@" + Lower(domain);
    assert NormalizeEmail(Some(s)) == r;
    assert t[0] == if name == [] then '@' else name[0];
    assert r[0] == t[0];
    if domain == [] {
      assert r[|r| - 1] == '@';
    } else {
      assert t[|t| - 1] == domain[|domain| - 1];
      assert r[|r| - 1] == LowerChar(domain[|domain| - 1]);
    }
    StripOfTrimmed(r);
  }

  /** Normalising an address that has no surrounding whitespace leaves none. */
  lemma NormalizeKeepsStripped(s: string)
    requires Strip(s) == s
    ensures Strip(NormalizeEmail(Some(s))) == NormalizeEmail(Some(s))
  {
    if '@' in s {
      NormalizeIsStripped(s);
    } else {
      NormalizeWithoutAt(s);
    }
  }

  /** Normalising keeps the number of '@' characters. */
  lemma NormalizeKeepsAtCount(email: Option<string>)
    ensures multiset(NormalizeEmail(email))['@'] == multiset(OrEmpty(email))['@']
  {
    var e := OrEmpty(email);
    var t := Strip(e);
    StripKeepsAts(e);
    match RSplitAt(t)
    case None =>
    case Some((name, domain)) =>
      LowerFacts(domain);
      assert multiset(t) == multiset(name) + multiset("@") + multiset(domain);
      assert NormalizeEmail(email) == name + "@" + Lower(domain);
      assert multiset(name + "@" + Lower(domain)) == multiset(name) + multiset("@") + multiset(Lower(domain));
  }

  /** Normalising an already normalised address changes nothing. */
  lemma NormalizeIdempotent(email: Option<string>)
    ensures NormalizeEmail(Some(NormalizeEmail(email))) == NormalizeEmail(email)
  {
    var e := OrEmpty(email);
    var t := Strip(e);
    match RSplitAt(t)
    case None =>
      StripKeepsAts(e);
      assert '@' !in multiset(t);
      NormalizeWithoutAt(e);
    case Some((name, domain)) =>
      var r := name + "@" + Lower(domain);
      assert '@' in e by {
        StripKeepsAts(e);
        assert '@' in multiset(t);
      }
      NormalizeIsStripped(e);
      LowerFacts(domain);
      RSplitAtUnique(r, name, Lower(domain));
  }

  /** One message handed to the mail backend by `Util.send_email`. */
  datatype Mail = Mail(toEmail: string, subject: string, body: string)

  /** The mail backend, seen only through the messages sent to it. */
  class Outbox {
    ghost var sent: seq<Mail>

    constructor ()
      ensures sent == []
    {
      sent := [];
    }

    /** `Util.send_email(data)`: hands exactly one message to the backend. */
    method SendEmail(m: Mail)
      modifies this
      ensures sent == old(sent) + [m]
    {
      sent := sent + [m];
    }
  }
}
