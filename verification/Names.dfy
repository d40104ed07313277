/** Project and branch names as the handlers accept them. */
module Names {
  import opened Model

  const MAX_NAME_LENGTH: nat := 256

  /** White space as Unicode defines it. */
  predicate IsSpace(c: char) {
    ('\t' <= c <= '\r') || c == ' ' || c == '\U{85}' || c == '\U{A0}' || c == '\U{1680}'
    || ('\U{2000}' <= c <= '\U{200A}') || c == '\U{2028}' || c == '\U{2029}' || c == '\U{202F}'
    || c == '\U{205F}' || c == '\U{3000}'
  }

  function TrimLeft(s: string): string {
    if s != "" && IsSpace(s[0]) then TrimLeft(s[1..]) else s
  }

  function TrimRight(s: string): string {
    if s != "" && IsSpace(s[|s| - 1]) then TrimRight(s[..|s| - 1]) else s
  }

  function Trim(s: string): string { TrimRight(TrimLeft(s)) }

  predicate InAlphabet(c: char) {
    ('a' <= c <= 'z') || ('A' <= c <= 'Z') || ('0' <= c <= '9') || c == '_' || c == '/' || c == '-'
  }

  predicate MatchesPattern(s: string) { s != "" && forall i :: 0 <= i < |s| ==> InAlphabet(s[i]) }

  /** The length in bytes of the UTF-8 form. */
  function ByteLength(s: string): nat {
    if s == "" then 0 else
      (var c := s[0] as nat; if c < 0x80 then 1 else if c < 0x800 then 2 else if c < 0x1_0000 then 3 else 4)
      + ByteLength(s[1..])
  }

  datatype NameError = Required | TooLong | InvalidCharacters

  function ValidateName(name: string): Option<NameError> {
    if name == "" then Some(Required)
    else if ByteLength(Trim(name)) > MAX_NAME_LENGTH then Some(TooLong)
    else if !MatchesPattern(Trim(name)) then Some(InvalidCharacters)
    else None
  }

  /* ----- trimming ----- */

  predicate AllSpace(s: string) { forall i :: 0 <= i < |s| ==> IsSpace(s[i]) }

  predicate Trimmed(s: string) { s == "" || (!IsSpace(s[0]) && !IsSpace(s[|s| - 1])) }

  lemma {:induction false} TrimLeftSplits(s: string) returns (l: string)
    ensures AllSpace(l) && s == l + TrimLeft(s)
    ensures TrimLeft(s) == "" || !IsSpace(TrimLeft(s)[0])
  {
    l := "";
    if s != "" && IsSpace(s[0]) {
      l := TrimLeftSplits(s[1..]);
      l := [s[0]] + l;
      assert s == [s[0]] + s[1..];
    }
  }

  lemma {:induction false} TrimRightSplits(s: string) returns (r: string)
    ensures AllSpace(r) && s == TrimRight(s) + r
    ensures TrimRight(s) == "" || (!IsSpace(TrimRight(s)[|TrimRight(s)| - 1]) && TrimRight(s)[0] == s[0])
  {
    r := "";
    if s != "" && IsSpace(s[|s| - 1]) {
      r := TrimRightSplits(s[..|s| - 1]);
      r := r + [s[|s| - 1]];
      assert s == s[..|s| - 1] + [s[|s| - 1]];
    }
  }

  /** Trimming removes white space from both ends, and all of it. */
  lemma TrimSplits(s: string) returns (l: string, r: string)
    ensures AllSpace(l) && AllSpace(r) && s == l + Trim(s) + r && Trimmed(Trim(s))
    ensures (forall i :: 0 <= i < |l| ==> IsSpace(l[i])) && (forall i :: 0 <= i < |r| ==> IsSpace(r[i]))
    ensures Trim(s) != "" ==> !IsSpace(Trim(s)[0]) && !IsSpace(Trim(s)[|Trim(s)| - 1])
  {
    l := TrimLeftSplits(s);
    r := TrimRightSplits(TrimLeft(s));
    assert s == l + Trim(s) + r;
  }

  lemma {:induction false} TrimLeftPadding(l: string, s: string)
    requires AllSpace(l)
    ensures TrimLeft(l + s) == TrimLeft(s)
  {
    if l == "" {
      assert l + s == s;
    } else {
      assert (l + s)[1..] == l[1..] + s;
      TrimLeftPadding(l[1..], s);
    }
  }

  lemma {:induction false} TrimRightPadding(s: string, r: string)
    requires AllSpace(r)
    ensures TrimRight(s + r) == TrimRight(s)
  {
    if r == "" {
      assert s + r == s;
    } else {
      assert (s + r)[..|s + r| - 1] == s + r[..|r| - 1];
      TrimRightPadding(s, r[..|r| - 1]);
    }
  }

  /** Surrounding white space makes no difference: two raw names that differ only in it, and
      only those, have one trimmed form. */
  lemma TrimIgnoresPadding(l: string, s: string, r: string)
    requires AllSpace(l) && AllSpace(r) && Trimmed(s)
    ensures Trim(l + s + r) == s
  {
    assert l + s + r == l + (s + r);
    TrimLeftPadding(l, s + r);
    if s == "" {
      assert s + r == r && r + "" == r;
      TrimLeftPadding(r, "");
    } else {
      assert TrimLeft(s + r) == s + r;
      TrimRightPadding(s, r);
    }
  }

  lemma TrimIsIdempotent(s: string)
    ensures Trim(Trim(s)) == Trim(s)
  {
    var l, r := TrimSplits(s);
    TrimIgnoresPadding("", Trim(s), "");
    assert "" + Trim(s) + "" == Trim(s);
  }

  /** The white space that trimming removes, character by character. */
  lemma SpaceIs(c: char)
    ensures IsSpace(c) <==> c in [
      '\t', '\n', '\U{B}', '\U{C}', '\r', ' ', '\U{85}', '\U{A0}', '\U{1680}', '\U{2000}', '\U{2001}', '\U{2002}',
      '\U{2003}', '\U{2004}', '\U{2005}', '\U{2006}', '\U{2007}', '\U{2008}', '\U{2009}', '\U{200A}', '\U{2028}',
      '\U{2029}', '\U{202F}', '\U{205F}', '\U{3000}']
  {
  }

  /* ----- acceptance ----- */

  lemma {:induction false} AsciiLength(s: string)
    requires forall i :: 0 <= i < |s| ==> InAlphabet(s[i])
    ensures ByteLength(s) == |s|
  {
    if s != "" {
      AsciiLength(s[1..]);
    }
  }

  predicate IsName(s: string) {
    1 <= |s| <= MAX_NAME_LENGTH && forall i :: 0 <= i < |s| ==> InAlphabet(s[i])
  }

  /** A name is 1 to 256 characters, each a letter, a digit, an underscore, a slash or a
      hyphen. */
  lemma NameIs(s: string)
    ensures IsName(s) <==>
      && 1 <= |s| <= 256
      && forall i :: 0 <= i < |s| ==>
           ('a' <= s[i] <= 'z') || ('A' <= s[i] <= 'Z') || ('0' <= s[i] <= '9') || s[i] in ['_', '/', '-']
  {
  }

  /** A handler, which trims before it validates, accepts a raw name exactly if its trimmed form
      is 1 to 256 characters of the alphabet. */
  lemma AcceptedExactly(raw: string)
    ensures ValidateName(Trim(raw)).None? <==> IsName(Trim(raw))
  {
    TrimIsIdempotent(raw);
    if MatchesPattern(Trim(raw)) {
      AsciiLength(Trim(raw));
    }
  }

  const TEST_KEY_PREFIX := "health-check-"

  /** A storage health check's test key, that prefix and the clock in nanoseconds, is itself a
      name that the handlers accept. */
  lemma TestKeysAreNames(digits: string)
    requires 1 <= |digits| <= 20 && forall i :: 0 <= i < |digits| ==> '0' <= digits[i] <= '9'
    ensures Trim(TEST_KEY_PREFIX + digits) == TEST_KEY_PREFIX + digits
    ensures IsName(TEST_KEY_PREFIX + digits) && ValidateName(TEST_KEY_PREFIX + digits).None?
  {
    var key := TEST_KEY_PREFIX + digits;
    assert forall i :: 0 <= i < |TEST_KEY_PREFIX| ==> InAlphabet(TEST_KEY_PREFIX[i]);
    AcceptedExactly(key);
    assert Trimmed(key);
    assert "" + key + "" == key;
    TrimIgnoresPadding("", key, "");
  }

  /** Raw names that differ only in surrounding white space are accepted alike, as one name. */
  lemma PaddingIsIgnored(l: string, raw: string, r: string)
    requires AllSpace(l) && AllSpace(r)
    ensures Trim(l + raw + r) == Trim(raw)
    ensures ValidateName(Trim(l + raw + r)) == ValidateName(Trim(raw))
  {
    var l', r' := TrimSplits(raw);
    assert l + raw + r == (l + l') + Trim(raw) + (r' + r);
    TrimIgnoresPadding(l + l', Trim(raw), r' + r);
  }
}
