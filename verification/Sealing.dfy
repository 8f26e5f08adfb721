/** What the other modules assume of AES-GCM, the mask shown instead of a secret, and
    the white space that `strings.TrimSpace` trims. */
module Sealing {
  import opened Prelude

  /** The placeholder the API shows instead of a secret. */
  const SENTINEL: string := "\U{2022}\U{2022}\U{2022}\U{2022}\U{2022}\U{2022}\U{2022}\U{2022}"

  /** AES-GCM under the server's key: `seal` takes the plaintext and a nonce. */
  datatype Aead = Aead(seal: (string, nat) -> string, open: string -> Option<string>)

  /** What is sealed opens again; a ciphertext is base64, so neither empty nor the mask. */
  ghost predicate Lawful(a: Aead) {
    forall p: string, n: nat ::
      a.seal(p, n) != "" && a.seal(p, n) != SENTINEL && a.open(a.seal(p, n)) == Some(p)
  }

  predicate IsSpace(c: char) {
    || '\t' <= c <= '\r' || c == ' ' || c == '\U{0085}' || c == '\U{00A0}' || c == '\U{1680}'
    || '\U{2000}' <= c <= '\U{200A}' || c == '\U{2028}' || c == '\U{2029}' || c == '\U{202F}'
    || c == '\U{205F}' || c == '\U{3000}'
  }

  /** `strings.TrimSpace(s) == ""`. */
  predicate Blank(s: string) {
    forall i | 0 <= i < |s| :: IsSpace(s[i])
  }

  /** `strings.TrimSpace`. */
  function Trim(s: string): string {
    if s == "" then ""
    else if IsSpace(s[0]) then Trim(s[1..])
    else if IsSpace(s[|s| - 1]) then Trim(s[..|s| - 1])
    else s
  }

  /** Trimming leaves nothing of a blank string, no white space at an end, and a trimmed string alone. */
  lemma {:induction false} TrimSpec(s: string)
    ensures Trim(s) == "" <==> Blank(s)
    ensures Trim(s) != "" ==> !IsSpace(Trim(s)[0]) && !IsSpace(Trim(s)[|Trim(s)| - 1])
    ensures Trim(Trim(s)) == Trim(s)
    decreases |s|
  {
    if s != "" && IsSpace(s[0]) {
      TrimSpec(s[1..]);
      assert forall k | 0 < k < |s| :: s[k] == s[1..][k - 1];
    } else if s != "" && IsSpace(s[|s| - 1]) {
      TrimSpec(s[..|s| - 1]);
      assert !IsSpace(s[..|s| - 1][0]);
    }
  }
}
