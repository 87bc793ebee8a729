/**
  MongoDB object ids as they appear in this service: 24 hexadecimal
  characters.  Route parameters are strings; a query that uses one casts it
  to an object id first, and a string that does not cast makes the query
  throw (the handler then answers 500).
 */
module ObjectIds {

  import opened Wrappers

  /** A stored identity: the canonical, lower-case hex form of an object id. */
  type Id = string

  predicate IsHexDigit(c: char) {
    '0' <= c <= '9' || 'a' <= c <= 'f' || 'A' <= c <= 'F'
  }

  /** The regular expression `[0-9a-fA-F]{n}` anchored at both ends, matched one character at a time. */
  predicate MatchesHexRun(s: string, n: nat)
    decreases n
  {
    if n == 0 then s == []
    else s != [] && IsHexDigit(s[0]) && MatchesHexRun(s[1..], n - 1)
  }

  /** `^[0-9a-fA-F]{24}$`, the object-id format check of the user routes. */
  predicate MatchesObjectIdPattern(s: string) {
    MatchesHexRun(s, 24)
  }

  /** The run matcher accepts exactly the strings of length n made of hex digits. */
  lemma {:induction false} MatchesHexRunIff(s: string, n: nat)
    ensures MatchesHexRun(s, n) <==> |s| == n && forall i :: 0 <= i < |s| ==> IsHexDigit(s[i])
    decreases n
  {
    if n > 0 && s != [] {
      MatchesHexRunIff(s[1..], n - 1);
      if IsHexDigit(s[0]) && |s[1..]| == n - 1 && forall i :: 0 <= i < |s[1..]| ==> IsHexDigit(s[1..][i]) {
        forall i | 0 <= i < |s| ensures IsHexDigit(s[i]) {
          if i > 0 { assert s[i] == s[1..][i - 1]; }
        }
      }
    }
  }

  function LowerHexDigit(c: char): (d: char)
    ensures IsHexDigit(c) ==> IsHexDigit(d) && !('A' <= d <= 'F')
  {
    if 'A' <= c <= 'F' then (c as int - 'A' as int + 'a' as int) as char else c
  }

  /** A canonical id: 24 hex digits, none of them an upper-case letter. */
  predicate IsCanonical(id: string) {
    |id| == 24 && forall i :: 0 <= i < |id| ==> IsHexDigit(id[i]) && !('A' <= id[i] <= 'F')
  }

  /**
    Casting a route parameter to an object id.  Hex digits are read without
    regard to case, so an upper-case spelling names the same id as the
    lower-case one; anything that is not 24 hex digits does not cast.
   */
  function Cast(s: string): (r: Option<Id>)
    ensures r.Some? <==> MatchesObjectIdPattern(s)
    ensures r.Some? ==> IsCanonical(r.value) && |r.value| == |s|
    ensures r.Some? ==> forall i :: 0 <= i < |s| ==> r.value[i] == s[i] || ('A' <= s[i] <= 'F' && r.value[i] as int == s[i] as int + 32)
  {
    MatchesHexRunIff(s, 24);
    if MatchesObjectIdPattern(s) then Some(seq(|s|, i requires 0 <= i < |s| => LowerHexDigit(s[i]))) else None
  }

  /** A canonical id casts to itself: stored ids are found by their own spelling. */
  lemma CastCanonical(id: Id)
    requires IsCanonical(id)
    ensures Cast(id) == Some(id)
  {
    MatchesHexRunIff(id, 24);
    assert Cast(id).value == id;
  }

}
