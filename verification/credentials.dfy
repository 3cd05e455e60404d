/** The advisory check on an access token typed by the user
    (src/services/canvasApi.ts, `validateApiKey`). */
module Credentials {

  /** A character of the class `[a-zA-Z0-9~]`. */
  predicate IsKeyChar(c: char)
  {
    ('a' <= c <= 'z') || ('A' <= c <= 'Z') || ('0' <= c <= '9') || c == '~'
  }

  /** Tokens must be strictly longer than this many characters. */
  const MinKeyLength: nat := 20

  /** `apiKey.length > 20 && /^[a-zA-Z0-9~]+$/.test(apiKey)`: scans the key
      and stops at the first character outside the class. */
  method ValidateApiKey(apiKey: string) returns (ok: bool)
    ensures ok <==> |apiKey| > MinKeyLength && forall i :: 0 <= i < |apiKey| ==> IsKeyChar(apiKey[i])
  {
    if |apiKey| <= MinKeyLength {
      return false;
    }
    var i := 0;
    while i < |apiKey|
      invariant 0 <= i <= |apiKey|
      invariant forall j :: 0 <= j < i ==> IsKeyChar(apiKey[j])
    {
      if !IsKeyChar(apiKey[i]) {
        return false;
      }
      i := i + 1;
    }
    return true;
  }
}
