/**
 * Email verification codes (EmailService): a six-digit code is drawn, stored under
 * "email:<address>" with a five-minute time to live, mailed, and consumed by a matching check.
 */
module EmailVerification {
  import opened Wrappers

  /** Seconds a stored code lives (five minutes). */
  const ExpireTime: nat := 300
  /** Codes are drawn uniformly from [0, CodeBound). */
  const CodeBound: nat := 1000000
  /** Width of the zero-padded code (`%06d`). */
  const CodeWidth: nat := 6

  function Pow10(k: nat): (p: nat)
    ensures p >= 1
  {
    if k == 0 then 1 else 10 * Pow10(k - 1)
  }

  predicate IsDigit(c: char) {
    '0' <= c <= '9'
  }

  predicate AllDigits(s: string) {
    forall i :: 0 <= i < |s| ==> IsDigit(s[i])
  }

  function DigitChar(d: nat): (c: char)
    requires d < 10
    ensures IsDigit(c)
  {
    ('0' as int + d) as char
  }

  /** `String.format("%0<width>d", n)` for a value with at most `width` digits: the low `width` digits of n. */
  function PadDecimal(n: nat, width: nat): (s: string)
    ensures |s| == width && AllDigits(s)
  {
    if width == 0 then "" else PadDecimal(n / 10, width - 1) + [DigitChar(n % 10)]
  }

  /** The value of a string of decimal digits (the inverse of `PadDecimal`). */
  function DecimalValue(s: string): nat
    requires AllDigits(s)
  {
    if s == [] then 0 else 10 * DecimalValue(s[..|s| - 1]) + (s[|s| - 1] as int - '0' as int)
  }

  /** Padding loses nothing when the value fits in the width. */
  lemma {:induction false} DecimalValueOfPad(n: nat, width: nat)
    requires n < Pow10(width)
    ensures DecimalValue(PadDecimal(n, width)) == n
  {
    if width > 0 {
      DecimalValueOfPad(n / 10, width - 1);
      var s := PadDecimal(n, width);
      assert s[..|s| - 1] == PadDecimal(n / 10, width - 1);
    }
  }

  /** `createCode`, given the drawn number `random.nextInt(1000000)`. */
  function CreateCode(n: nat): (code: string)
    requires n < CodeBound
    ensures |code| == CodeWidth && AllDigits(code)
    ensures DecimalValue(code) == n
  {
    assert Pow10(CodeWidth) == CodeBound;
    DecimalValueOfPad(n, CodeWidth);
    PadDecimal(n, CodeWidth)
  }

  /** Different draws give different codes, so a code identifies its draw. */
  lemma CodesAreDistinct(a: nat, b: nat)
    requires a < CodeBound && b < CodeBound
    ensures CreateCode(a) == CreateCode(b) <==> a == b
  {
  }

  /** The store key of an address. */
  function Key(email: string): string {
    "email:" + email
  }

  /** Distinct addresses never share a key. */
  lemma KeyInjective(a: string, b: string)
    ensures Key(a) == Key(b) <==> a == b
  {
    if Key(a) == Key(b) {
      assert a == Key(a)[6..];
      assert b == Key(b)[6..];
    }
  }

  /** A stored code with the time to live it was written with. */
  datatype StoredCode = StoredCode(code: string, ttlSeconds: nat)

  /** The `MessagingException` sending can raise. */
  datatype MailError = MessagingError

  /** The store after `sendVerificationEmail` wrote the code of draw `n`; any earlier code is replaced. */
  function AfterSend(store: map<string, StoredCode>, email: string, n: nat): (s: map<string, StoredCode>)
    requires n < CodeBound
    ensures s.Keys == store.Keys + {Key(email)}
    ensures s[Key(email)] == StoredCode(CreateCode(n), ExpireTime)
    ensures forall k :: k in store && k != Key(email) ==> s[k] == store[k]
  {
    store[Key(email) := StoredCode(CreateCode(n), ExpireTime)]
  }

  /** `verifyCode`: whether the input matches the stored code, and the store afterwards. */
  function Verify(store: map<string, StoredCode>, email: string, inputCode: Option<string>)
    : (r: (bool, map<string, StoredCode>))
    ensures r.0 <==> Key(email) in store && inputCode == Some(store[Key(email)].code)
    ensures r.0 ==> r.1 == store - {Key(email)}
    ensures !r.0 ==> r.1 == store
  {
    var key := Key(email);
    if key in store && inputCode.Some? && store[key].code == inputCode.value then (true, store - {key})
    else (false, store)
  }

  /** The code just sent verifies, and is gone from the store afterwards. */
  lemma SentCodeVerifies(store: map<string, StoredCode>, email: string, n: nat)
    requires n < CodeBound
    ensures var (ok, after) := Verify(AfterSend(store, email, n), email, Some(CreateCode(n)));
      ok && Key(email) !in after
  {
  }

  /** A code verifies at most once: after a success, no input verifies for that address. */
  lemma CodeIsSingleUse(store: map<string, StoredCode>, email: string, first: Option<string>, second: Option<string>)
    requires Verify(store, email, first).0
    ensures !Verify(Verify(store, email, first).1, email, second).0
  {
  }

  /** Sending again replaces the earlier code: the first code still verifies only if both draws agree. */
  lemma ResendReplacesCode(store: map<string, StoredCode>, email: string, n: nat, m: nat)
    requires n < CodeBound && m < CodeBound
    ensures Verify(AfterSend(AfterSend(store, email, n), email, m), email, Some(CreateCode(n))).0 <==> n == m
  {
    CodesAreDistinct(n, m);
  }

  /** Verifying one address leaves every other address's code in place. */
  lemma VerifyIsPerAddress(store: map<string, StoredCode>, email: string, other: string, inputCode: Option<string>)
    requires other != email && Key(other) in store
    ensures var after := Verify(store, email, inputCode).1;
      Key(other) in after && after[Key(other)] == store[Key(other)]
  {
    KeyInjective(email, other);
  }

  class EmailService {
    /** The Redis values under "email:<address>". */
    var store: map<string, StoredCode>

    constructor ()
      ensures store == map[]
    {
      store := map[];
    }

    /**
     * `sendVerificationEmail`. `draw` stands for `random.nextInt(1000000)` and `mailFails` for
     * the outcome of `mailSender.send`; the code is stored before sending and stays stored when
     * sending fails.
     */
    method SendVerificationEmail(email: string, draw: nat, mailFails: bool) returns (r: Result<string, MailError>)
      requires draw < CodeBound
      modifies this
      ensures store == AfterSend(old(store), email, draw)
      ensures r.Err? <==> mailFails
      ensures r.Ok? ==> r.value == CreateCode(draw) && |r.value| == CodeWidth
    {
      var code := CreateCode(draw);
      store := store[Key(email) := StoredCode(code, ExpireTime)];
      if mailFails {
        return Err(MessagingError);
      }
      r := Ok(code);
    }

    /** `verifyCode`; a null input never matches. */
    method VerifyCode(email: string, inputCode: Option<string>) returns (ok: bool)
      modifies this
      ensures (ok, store) == Verify(old(store), email, inputCode)
    {
      var key := Key(email);
      if key in store && inputCode.Some? && store[key].code == inputCode.value {
        store := store - {key};
        return true;
      }
      return false;
    }
  }
}
