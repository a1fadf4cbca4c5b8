/**
 Step-up verification (controller/secure_verification.go, controller/passkey.go,
 middleware/secure_verification.go): a session records that its user has just proved
 who they are, by a one-time code or in two steps by a passkey, and sensitive actions
 ask the session for it. The session travels in a signed cookie (main.go): a request
 works on the value its client presents and, by saving, sends a new one back, so a
 client can present any value it has ever been sent.
 */
module SecureSession {

  import opened Basics

  const SECURE_VERIFICATION_TIMEOUT := 300
  const PASSKEY_READY_TIMEOUT := 60

  /** A session value that should be a time. */
  datatype Stamp = Missing | At(time: int) | Garbled

  /** The three session keys. */
  datatype Keys = Keys(ready: Stamp, verifiedAt: Stamp, verifiedMethod: Option<string>)

  /** What the user has set up and whether the submitted code is accepted. */
  datatype Request = Request(means: string, has2FA: bool, hasPasskey: bool, codeAccepted: bool)

  /** A request on the session, with its clock readings and whether each save succeeds. */
  datatype Event =
    | Finish(now: int, saved: bool)
    | Verify(request: Request, checkedAt: int, now: int, consumeSaved: bool, saved: bool)
    | Require(means: string, now: int, saved: bool)
    | Guard(now: int, saved: bool)
    | Clear(now: int, saved: bool)

  // ----- What each request does ------------------------------------------------

  /** The session as `consumePasskeyReady` leaves it. */
  function Consumed(k: Keys, saved: bool): Keys {
    if k.ready.Missing? || !saved then k else k.(ready := Missing)
  }

  function ConsumeSucceeds(k: Keys, checkedAt: int, saved: bool): bool {
    k.ready.At? && saved && checkedAt - k.ready.time < PASSKEY_READY_TIMEOUT
  }

  predicate TriesMarker(r: Request) {
    r.means == "passkey" && r.hasPasskey
  }

  predicate Proves(k: Keys, r: Request, checkedAt: int, saved: bool) {
    if r.means == "2fa" then r.has2FA && r.codeAccepted
    else TriesMarker(r) && ConsumeSucceeds(k, checkedAt, saved)
  }

  predicate Fresh(k: Keys, now: int) {
    k.verifiedAt.At? && now - k.verifiedAt.time < SECURE_VERIFICATION_TIMEOUT
  }

  function Forgotten(k: Keys, saved: bool): Keys {
    if saved then k.(verifiedAt := Missing, verifiedMethod := None) else k
  }

  /** Whether the request is answered with success. */
  predicate Succeeds(k: Keys, e: Event) {
    match e
    case Finish(_, saved) => saved
    case Verify(r, checkedAt, _, consumeSaved, saved) => Proves(k, r, checkedAt, consumeSaved) && saved
    case Require(m, now, _) => Fresh(k, now) && k.verifiedMethod == Some(m)
    case Guard(now, _) => Fresh(k, now)
    case Clear(_, _) => true
  }

  /** The session after the request, as its client holds it then. */
  function After(k: Keys, e: Event): Keys {
    match e
    case Finish(now, saved) => if saved then Keys(At(now), Missing, None) else k
    case Verify(r, _, now, consumeSaved, _) =>
      if Succeeds(k, e) then Keys(Missing, At(now), Some(r.means))
      else if TriesMarker(r) then Consumed(k, consumeSaved)
      else k
    case Require(_, now, saved) => if Fresh(k, now) then k else Forgotten(k, saved)
    case Guard(now, saved) => if k.verifiedAt.Missing? || Fresh(k, now) then k else Forgotten(k, saved)
    case Clear(_, saved) => Forgotten(k, saved)
  }

  /** The session of one request: what its client presented, replaced by what was saved last. */
  class Session {
    var stored: Keys

    constructor (presented: Keys)
      ensures stored == presented
    {
      stored := presented;
    }

    /** The end of PasskeyVerifyFinish, after the credential was accepted. */
    method PasskeyVerifyFinish(now: int, saved: bool) returns (ok: bool)
      modifies this
      ensures stored == After(old(stored), Finish(now, saved)) && ok == Succeeds(old(stored), Finish(now, saved))
    {
      var session := stored;
      session := session.(ready := At(now));
      session := session.(verifiedAt := Missing);
      session := session.(verifiedMethod := None);
      if saved {
        stored := session;
      }
      ok := saved;
    }

    method ConsumePasskeyReady(checkedAt: int, saved: bool) returns (verified: bool)
      modifies this
      ensures stored == Consumed(old(stored), saved)
      ensures verified == ConsumeSucceeds(old(stored), checkedAt, saved)
    {
      var readyAt := stored.ready;
      if readyAt.Missing? {
        return false;
      }
      if saved {
        stored := stored.(ready := Missing);
      }
      if readyAt.Garbled? || !saved {
        return false;
      }
      if checkedAt - readyAt.time >= PASSKEY_READY_TIMEOUT {
        return false;
      }
      verified := true;
    }

    method SetSecureVerificationSession(means: string, now: int, saved: bool) returns (ok: bool)
      modifies this
      ensures stored == if saved then Keys(Missing, At(now), Some(means)) else old(stored)
      ensures ok == saved
    {
      var session := stored.(ready := Missing);
      session := session.(verifiedAt := At(now), verifiedMethod := Some(means));
      if saved {
        stored := session;
      }
      ok := saved;
    }

    method UniversalVerify(r: Request, checkedAt: int, now: int, consumeSaved: bool, saved: bool) returns (ok: bool)
      modifies this
      ensures var e := Verify(r, checkedAt, now, consumeSaved, saved);
              stored == After(old(stored), e) && ok == Succeeds(old(stored), e)
    {
      if !r.has2FA && !r.hasPasskey {
        return false;
      }
      var verified := false;
      if r.means == "2fa" {
        if !r.has2FA {
          return false;
        }
        verified := r.codeAccepted;
      } else if r.means == "passkey" {
        if !r.hasPasskey {
          return false;
        }
        verified := ConsumePasskeyReady(checkedAt, consumeSaved);
      } else {
        return false;
      }
      if !verified {
        return false;
      }
      ok := SetSecureVerificationSession(r.means, now, saved);
    }

    method RequireSecureVerificationMethod(means: string, now: int, saved: bool) returns (ok: bool)
      modifies this
      ensures var e := Require(means, now, saved);
              stored == After(old(stored), e) && ok == Succeeds(old(stored), e)
    {
      if !stored.verifiedAt.At? || now - stored.verifiedAt.time >= SECURE_VERIFICATION_TIMEOUT {
        ClearSecureVerification(saved);
        return false;
      }
      ok := stored.verifiedMethod == Some(means);
    }

    method SecureVerificationRequired(now: int, saved: bool) returns (ok: bool)
      modifies this
      ensures stored == After(old(stored), Guard(now, saved)) && ok == Succeeds(old(stored), Guard(now, saved))
    {
      if stored.verifiedAt.Missing? {
        return false;
      }
      if stored.verifiedAt.Garbled? || now - stored.verifiedAt.time >= SECURE_VERIFICATION_TIMEOUT {
        ClearSecureVerification(saved);
        return false;
      }
      ok := true;
    }

    method ClearSecureVerification(saved: bool)
      modifies this
      ensures stored == Forgotten(old(stored), saved)
    {
      var session := stored.(verifiedAt := Missing);
      session := session.(verifiedMethod := None);
      if saved {
        stored := session;
      }
    }

    method Handle(e: Event) returns (ok: bool)
      modifies this
      ensures stored == After(old(stored), e) && ok == Succeeds(old(stored), e)
    {
      match e
      case Finish(now, saved) => ok := PasskeyVerifyFinish(now, saved);
      case Verify(r, checkedAt, now, consumeSaved, saved) =>
        ok := UniversalVerify(r, checkedAt, now, consumeSaved, saved);
      case Require(m, now, saved) => ok := RequireSecureVerificationMethod(m, now, saved);
      case Guard(now, saved) => ok := SecureVerificationRequired(now, saved);
      case Clear(_, saved) => ClearSecureVerification(saved); ok := true;
    }
  }

  // ----- Whole runs ------------------------------------------------------------

  /**
   Requests and the values they present. Value 0 is the session at the start and value `i + 1` is what
   the client holds after request `i`; request `i` presents value `from[i]`, any of those issued before.
   */
  datatype Run = Run(start: Keys, from: seq<nat>, events: seq<Event>) {
    predicate Valid() {
      |from| == |events| && forall i :: 0 <= i < |from| ==> from[i] <= i
    }

    function Value(v: nat): Keys
      requires Valid() && v <= |events|
      decreases v
    {
      if v == 0 then start else After(Value(from[v - 1]), events[v - 1])
    }

    function Presented(i: nat): Keys
      requires Valid() && i < |events|
    {
      Value(from[i])
    }

    predicate Accepted(i: nat)
      requires Valid() && i < |events|
    {
      Succeeds(Presented(i), events[i])
    }

    /** The requests that led from the start to value `v`. */
    ghost function History(v: nat): set<nat>
      requires Valid() && v <= |events|
      decreases v
    {
      if v == 0 then {} else History(from[v - 1]) + {v - 1}
    }
  }
}
