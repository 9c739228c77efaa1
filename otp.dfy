/** The one-time-password helper (backend/utils/otp.js): a six-digit code,
    and an in-memory store keyed by mobile number whose entries expire ten
    minutes after they are stored and are consumed by a successful check.
    The random draw and the clock are parameters; sending the code (a log
    line and a delay) is not modelled. */
module Otp {
  import opened Common

  /** Ten minutes, in milliseconds. */
  const OtpLifetime := 600000

  /** `Math.floor(100000 + Math.random() * 900000).toString()`, where `draw`
      is the whole part of `Math.random() * 900000`. */
  function GenerateOtp(draw: nat): (code: string)
    requires draw < 900000
    ensures |code| == 6
    ensures forall i :: 0 <= i < |code| ==> IsDigit(code[i])
    ensures DigitsValue(code) == 100000 + draw
    ensures 100000 <= DigitsValue(code) <= 999999 && code[0] != '0'
  {
    var v := 100000 + draw;
    NatToStringLength(v, 5);
    DigitsValueOfNatToString(v);
    var code := NatToString(v);
    LeadingDigitNonZero(code);
    code
  }

  /** A six-digit string that starts with 0 has a value below 100000, so
      the rendering of a value of at least 100000 does not start with 0. */
  lemma LeadingDigitNonZero(code: string)
    requires |code| == 6 && forall i :: 0 <= i < |code| ==> IsDigit(code[i])
    ensures code[0] == '0' ==> DigitsValue(code) < 100000
  {
    assert Pow10(2) == 100;
    assert Pow10(5) == 100000;
    if code[0] == '0' {
      DigitsValueBound(code[1..]);
      DigitsValueZeroPrefix(code);
    }
  }

  lemma {:induction false} DigitsValueBound(s: string)
    requires forall i :: 0 <= i < |s| ==> IsDigit(s[i])
    ensures DigitsValue(s) < Pow10(|s|)
    decreases |s|
  {
    if s != [] {
      var init := s[..|s| - 1];
      DigitsValueBound(init);
      assert DigitsValue(s) == DigitsValue(init) * 10 + (s[|s| - 1] as int - '0' as int);
      assert DigitsValue(init) <= Pow10(|init|) - 1;
    }
  }

  /** A leading zero adds nothing to the value. */
  lemma {:induction false} DigitsValueZeroPrefix(s: string)
    requires |s| >= 1 && s[0] == '0' && forall i :: 0 <= i < |s| ==> IsDigit(s[i])
    ensures DigitsValue(s) == DigitsValue(s[1..])
    decreases |s|
  {
    if |s| > 1 {
      var init := s[..|s| - 1];
      DigitsValueZeroPrefix(init);
      assert init[1..] == s[1..][..|s[1..]| - 1];
      assert s[1..][|s[1..]| - 1] == s[|s| - 1];
    }
  }

  /** Different draws give different codes. */
  lemma GenerateOtpInjective(a: nat, b: nat)
    requires a < 900000 && b < 900000 && GenerateOtp(a) == GenerateOtp(b)
    ensures a == b
  {
    assert DigitsValue(GenerateOtp(a)) == DigitsValue(GenerateOtp(b));
  }

  // ---------------------------------------------------------------------
  // The store

  datatype OtpEntry = OtpEntry(otp: string, expiresAt: int)

  /** `{ valid, error }`; a successful check carries no error. */
  datatype OtpCheck = OtpCheck(valid: bool, error: Option<string>)

  const NotFoundOrExpired := "OTP not found or expired"
  const Expired := "OTP expired"
  const InvalidOtp := "Invalid OTP"

  /** storeOTP on the map: the entry for `mobile` is replaced, with its
      expiry ten minutes from now. */
  function StoreStep(entries: map<string, OtpEntry>, mobile: string, otp: string, now: int)
    : (r: map<string, OtpEntry>)
    ensures r.Keys == entries.Keys + {mobile}
    ensures r[mobile].otp == otp && r[mobile].expiresAt == now + OtpLifetime
    ensures forall other :: other in entries && other != mobile ==> r[other] == entries[other]
  {
    entries[mobile := OtpEntry(otp, now + OtpLifetime)]
  }

  datatype VerifyOutcome = VerifyOutcome(check: OtpCheck, entries: map<string, OtpEntry>)

  /** verifyOTP on the map. The code is accepted exactly when an entry
      exists, has not expired (its expiry instant itself still counts) and
      holds the same code; the entry is removed when it is accepted or found
      expired, and kept after a mismatch. No other mobile's entry changes. */
  function VerifyStep(entries: map<string, OtpEntry>, mobile: string, otp: string, now: int)
    : (r: VerifyOutcome)
    ensures r.check.valid <==>
              mobile in entries && now <= entries[mobile].expiresAt && entries[mobile].otp == otp
    ensures r.check.valid <==> r.check.error.None?
    ensures mobile !in entries ==> r.check.error == Some(NotFoundOrExpired)
    ensures mobile in entries && now > entries[mobile].expiresAt ==> r.check.error == Some(Expired)
    ensures mobile in entries && now <= entries[mobile].expiresAt && entries[mobile].otp != otp ==>
              r.check.error == Some(InvalidOtp)
    ensures mobile in r.entries <==> mobile in entries && !r.check.valid && r.check.error != Some(Expired)
    ensures mobile in r.entries ==> r.entries[mobile] == entries[mobile]
    ensures forall other :: other != mobile ==>
              (other in r.entries <==> other in entries)
              && (other in entries ==> r.entries[other] == entries[other])
  {
    if mobile !in entries then VerifyOutcome(OtpCheck(false, Some(NotFoundOrExpired)), entries)
    else
      var stored := entries[mobile];
      if now > stored.expiresAt then VerifyOutcome(OtpCheck(false, Some(Expired)), entries - {mobile})
      else if stored.otp != otp then VerifyOutcome(OtpCheck(false, Some(InvalidOtp)), entries)
      else VerifyOutcome(OtpCheck(true, None), entries - {mobile})
  }

  /** A fresh code is accepted with the same code any time up to and
      including its expiry instant, and refused as expired one millisecond
      later. */
  lemma StoreThenVerify(entries: map<string, OtpEntry>, mobile: string, otp: string, now: int, later: int)
    requires now <= later
    ensures var stored := StoreStep(entries, mobile, otp, now);
            && (later <= now + OtpLifetime ==> VerifyStep(stored, mobile, otp, later).check == OtpCheck(true, None))
            && VerifyStep(stored, mobile, otp, now + OtpLifetime + 1).check == OtpCheck(false, Some(Expired))
  {
  }

  /** A code is good for one successful check: a second check with the same
      code finds no entry. */
  lemma SingleUse(entries: map<string, OtpEntry>, mobile: string, otp: string, now: int, later: int)
    requires VerifyStep(entries, mobile, otp, now).check.valid
    ensures VerifyStep(VerifyStep(entries, mobile, otp, now).entries, mobile, otp, later).check
            == OtpCheck(false, Some(NotFoundOrExpired))
  {
  }

  /** A wrong code leaves the entry in place, so the right code still
      succeeds afterwards within the lifetime. */
  lemma RetryAfterMismatch(entries: map<string, OtpEntry>, mobile: string, wrong: string, now: int, later: int)
    requires mobile in entries && entries[mobile].otp != wrong
    requires now <= later <= entries[mobile].expiresAt
    ensures var after := VerifyStep(entries, mobile, wrong, now);
            && after.check == OtpCheck(false, Some(InvalidOtp))
            && after.entries == entries
            && VerifyStep(after.entries, mobile, entries[mobile].otp, later).check.valid
  {
  }

  /** Storing again replaces the earlier code: only the latest one is
      accepted. */
  lemma StoreOverwrites(entries: map<string, OtpEntry>, mobile: string, first: string, second: string,
                        now: int, later: int)
    requires first != second && now <= later <= now + OtpLifetime
    ensures var stored := StoreStep(StoreStep(entries, mobile, first, now), mobile, second, now);
            && VerifyStep(stored, mobile, first, later).check == OtpCheck(false, Some(InvalidOtp))
            && VerifyStep(stored, mobile, second, later).check.valid
  {
  }

  /** The module-level `Map` behind storeOTP and verifyOTP. */
  class OtpStore {
    var entries: map<string, OtpEntry>

    constructor ()
      ensures entries == map[]
    {
      entries := map[];
    }

    method Store(mobile: string, otp: string, now: int)
      modifies this
      ensures entries == StoreStep(old(entries), mobile, otp, now)
    {
      entries := entries[mobile := OtpEntry(otp, now + OtpLifetime)];
    }

    method Verify(mobile: string, otp: string, now: int) returns (c: OtpCheck)
      modifies this
      ensures VerifyStep(old(entries), mobile, otp, now) == VerifyOutcome(c, entries)
    {
      if mobile !in entries {
        return OtpCheck(false, Some(NotFoundOrExpired));
      }
      var stored := entries[mobile];
      if now > stored.expiresAt {
        entries := entries - {mobile};
        return OtpCheck(false, Some(Expired));
      }
      if stored.otp != otp {
        return OtpCheck(false, Some(InvalidOtp));
      }
      entries := entries - {mobile};
      c := OtpCheck(true, None);
    }
  }
}
