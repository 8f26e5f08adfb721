/** The tail of a log, cut to a byte limit without cutting a character. */
module Utf8Tail {

  type Bytes = seq<bv8>

  const MAX_RESPONSE: nat := 65536

  // ------------------------------------------- well-formed UTF-8, section 4 of RFC 3629

  predicate Continuation(b: bv8) {
    0x80 <= b <= 0xBF
  }

  /** The range of the byte behind a leading byte. */
  predicate Second(lead: bv8, b: bv8) {
    if lead == 0xE0 then 0xA0 <= b <= 0xBF
    else if lead == 0xED then 0x80 <= b <= 0x9F
    else if lead == 0xF0 then 0x90 <= b <= 0xBF
    else if lead == 0xF4 then 0x80 <= b <= 0x8F
    else Continuation(b)
  }

  /** The length a leading byte announces; zero for a byte that leads nothing. */
  function Announced(lead: bv8): nat {
    if lead <= 0x7F then 1
    else if 0xC2 <= lead <= 0xDF then 2
    else if 0xE0 <= lead <= 0xEF then 3
    else if 0xF0 <= lead <= 0xF4 then 4
    else 0
  }

  /** The length of the character at the front, zero when there is none. */
  function CharLen(s: Bytes): (n: nat)
    ensures n <= |s|
    ensures n > 0 ==> !Continuation(s[0]) && forall i | 1 <= i < n :: Continuation(s[i])
  {
    if s == [] then 0
    else
      var n := Announced(s[0]);
      if n <= |s| && (n < 2 || Second(s[0], s[1])) && (forall i | 2 <= i < n :: Continuation(s[i])) then n else 0
  }

  predicate Valid(s: Bytes) {
    s == [] || (CharLen(s) > 0 && Valid(s[CharLen(s)..]))
  }

  // -------------------------------------------------------------------- the tail

  /** `strings.ToValidUTF8(s, "")`: bytes that begin no character are dropped. */
  function ToValid(s: Bytes): (r: Bytes)
    ensures |r| <= |s|
  {
    if s == [] then []
    else if CharLen(s) > 0 then s[..CharLen(s)] + ToValid(s[CharLen(s)..])
    else ToValid(s[1..])
  }

  /** What is kept is well formed, whatever came in. */
  lemma {:induction false} ToValidIsValid(s: Bytes)
    ensures Valid(ToValid(s))
    decreases |s|
  {
    if s != [] {
      var n := CharLen(s);
      if n > 0 {
        ToValidIsValid(s[n..]);
        var r := ToValid(s);
        assert r[..n] == s[..n];
        assert forall i | 0 <= i < n :: r[i] == r[..n][i] == s[..n][i] == s[i];
        assert CharLen(r) == n;
        assert r[n..] == ToValid(s[n..]);
      } else {
        ToValidIsValid(s[1..]);
      }
    }
  }

  /** Well-formed bytes are kept as they are. */
  lemma {:induction false} ToValidKeepsValid(s: Bytes)
    requires Valid(s)
    ensures ToValid(s) == s
    decreases |s|
  {
    if s != [] {
      ToValidKeepsValid(s[CharLen(s)..]);
    }
  }

  /** In well-formed bytes, a suffix is well formed exactly when no character is cut. */
  lemma {:induction false} SuffixIsValid(s: Bytes, k: nat)
    requires Valid(s) && k <= |s|
    ensures Valid(s[k..]) <==> k == |s| || !Continuation(s[k])
    decreases |s|
  {
    if k == 0 {
      assert s[0..] == s;
    } else if k < |s| {
      var n := CharLen(s);
      if k < n {
        assert s[k..][0] == s[k];
      } else {
        SuffixIsValid(s[n..], k - n);
        assert s[n..][k - n..] == s[k..];
        assert k - n < |s[n..]| && s[n..][k - n] == s[k];
      }
    }
  }

  /** `r` is the longest well-formed suffix of `logs` within the limit. */
  ghost predicate LongestTail(logs: Bytes, limit: nat, r: Bytes) {
    && |r| <= limit
    && |r| <= |logs|
    && r == logs[|logs| - |r|..]
    && Valid(r)
    && forall k | 0 <= k <= |logs| && |logs| - k <= limit && Valid(logs[k..]) :: |logs| - k <= |r|
  }

  lemma MaskIsContinuation(b: bv8)
    ensures b & 0xC0 == 0x80 <==> Continuation(b)
  {}

  /** The answer fits and, for a log that is cut, is well formed; for a well-formed log it is
      the longest well-formed tail that fits. */
  method TailLogOutput(logs: Bytes, maxBytes: nat) returns (r: Bytes)
    ensures |r| <= maxBytes
    ensures |logs| <= maxBytes ==> r == logs
    ensures |logs| > maxBytes ==> Valid(r)
    ensures Valid(logs) ==> LongestTail(logs, maxBytes, r)
  {
    if |logs| <= maxBytes {
      assert logs[|logs| - |logs|..] == logs;
      return logs;
    }
    var tail := logs[|logs| - maxBytes..];
    while |tail| > 0 && tail[0] & 0xC0 == 0x80
      invariant |tail| <= maxBytes && tail == logs[|logs| - |tail|..]
      invariant forall k | |logs| - maxBytes <= k < |logs| - |tail| :: Continuation(logs[k])
    {
      MaskIsContinuation(tail[0]);
      assert tail[0] == logs[|logs| - |tail|];
      tail := tail[1..];
    }
    ToValidIsValid(tail);
    r := ToValid(tail);
    if Valid(logs) {
      TailIsLongest(logs, maxBytes, tail);
    }
  }

  /** Dropping the continuation bytes in front leaves the longest tail, which stays as it is. */
  lemma TailIsLongest(logs: Bytes, limit: nat, tail: Bytes)
    requires Valid(logs) && |tail| <= limit < |logs| && tail == logs[|logs| - |tail|..]
    requires tail == [] || tail[0] & 0xC0 != 0x80
    requires forall k | |logs| - limit <= k < |logs| - |tail| :: Continuation(logs[k])
    ensures LongestTail(logs, limit, tail) && ToValid(tail) == tail
  {
    var start := |logs| - |tail|;
    if tail != [] {
      assert tail[0] == logs[start];
      MaskIsContinuation(tail[0]);
    }
    SuffixIsValid(logs, start);
    ToValidKeepsValid(tail);
    forall k | 0 <= k <= |logs| && |logs| - k <= limit && Valid(logs[k..])
      ensures |logs| - k <= |tail|
    {
      SuffixIsValid(logs, k);
    }
  }

  /** The response is capped, and says so exactly when something was left out. */
  method CapLogOutput(logs: Bytes) returns (r: Bytes, truncated: bool)
    ensures |r| <= MAX_RESPONSE
    ensures truncated <==> r != logs
    ensures Valid(logs) ==> LongestTail(logs, MAX_RESPONSE, r)
  {
    if |logs| <= MAX_RESPONSE {
      assert logs[|logs| - |logs|..] == logs;
      return logs, false;
    }
    r := TailLogOutput(logs, MAX_RESPONSE);
    truncated := true;
  }
}
