/**
 * The table logic of the device-token endpoints: registration as an upsert keyed by the token
 * value, removal as a soft deactivation, and the test notification that marks the token used
 * only when the push was accepted. The push transport is the parameter `send`.
 */
module DeviceTokenController {
  import opened Wrappers
  import opened DeviceTokens
  import Tables

  datatype TokenError = FcmTokenRequired | TokenNotFound(id: int)

  /** A message handed to the push transport. */
  datatype PushMessage = PushMessage(fcmToken: string, title: string, body: string)

  const DefaultTestTitle: string := "테스트 알림"
  const DefaultTestBody: string := "Goal Management App 알림 테스트입니다."

  /** The token value of a request, when it is present and not empty. */
  function RequiredToken(fcmToken: Option<string>): (r: Option<string>)
    ensures r.Some? <==> fcmToken.Some? && fcmToken.value != ""
    ensures r.Some? ==> r == fcmToken
  {
    match fcmToken
    case Some(s) => if s == "" then None else Some(s)
    case None => None
  }

  /**
   * `registerToken`. An absent or empty token fails and writes nothing. A known token has its
   * device columns overwritten and is reactivated in its own row; an unknown token gets one new
   * active row. Either way the table then holds exactly one row for the token, and no other
   * token's row changes.
   */
  method RegisterToken(store: DeviceTokenStore, fcmToken: Option<string>, deviceId: Option<string>,
                       deviceName: Option<string>, platform: Option<string>, now: int)
    returns (r: Result<DeviceTokenRecord, TokenError>)
    requires store.Valid()
    modifies store
    ensures store.Valid()
    ensures RequiredToken(fcmToken).None? ==>
      r == Failure(FcmTokenRequired) && store.rows == old(store.rows) && store.saves == old(store.saves)
    ensures RequiredToken(fcmToken).Some? ==>
      r.Success? && r.value.fcmToken == fcmToken.value && r.value.isActive &&
      r.value.deviceId == deviceId && r.value.deviceName == deviceName && r.value.platform == platform &&
      store.FindByFcmToken(fcmToken.value) == Some(r.value) && store.saves == old(store.saves) + [r.value] &&
      (forall fcm :: fcm != fcmToken.value ==> store.FindByFcmToken(fcm) == old(store.FindByFcmToken(fcm)))
    ensures RequiredToken(fcmToken).Some? && old(store.FindByFcmToken(fcmToken.value)).Some? ==>
      var t := old(store.FindByFcmToken(fcmToken.value)).value;
      r.value == Activated(t.(deviceId := deviceId, deviceName := deviceName, platform := platform), now) &&
      |store.rows| == |old(store.rows)|
    ensures RequiredToken(fcmToken).Some? && old(store.FindByFcmToken(fcmToken.value)).None? ==>
      r.value == Created(DeviceTokenRecord(old(store.nextId), fcmToken.value, deviceId, deviceName, platform,
                                           true, None, None, None), now) &&
      r.value.createdAt == Some(now) && r.value.updatedAt == Some(now) && r.value.lastUsedAt.None? &&
      store.rows == old(store.rows) + [r.value]
  {
    if RequiredToken(fcmToken).None? {
      return Failure(FcmTokenRequired);
    }
    var fcm := fcmToken.value;
    var existing := store.FindByFcmToken(fcm);
    if existing.Some? {
      var t := existing.value;
      var updated := Activated(t.(deviceId := deviceId, deviceName := deviceName, platform := platform), now);
      assert t.id < store.nextId by {
        var j :| 0 <= j < |store.rows| && store.rows[j] == t;
      }
      assert forall i :: 0 <= i < |store.rows| ==> (store.rows[i].id == t.id <==> store.rows[i].fcmToken == fcm) by {
        var j :| 0 <= j < |store.rows| && store.rows[j] == t;
      }
      store.Save(updated);
      r := Success(updated);
    } else {
      var saved := store.Insert(DeviceTokenRecord(0, fcm, deviceId, deviceName, platform, true, None, None, None), now);
      r := Success(saved);
    }
  }

  /** `deleteToken`: deactivate the row with `id` in place, or report not-found and change nothing. */
  method DeleteToken(store: DeviceTokenStore, id: int, now: int) returns (o: Outcome<TokenError>)
    requires store.Valid()
    modifies store
    ensures store.Valid()
    ensures old(store.FindById(id)).None? ==>
      o == Fail(TokenNotFound(id)) && store.rows == old(store.rows) && store.saves == old(store.saves)
    ensures old(store.FindById(id)).Some? ==>
      o == Pass && store.FindById(id) == Some(Deactivated(old(store.FindById(id)).value, now)) &&
      |store.rows| == |old(store.rows)| && store.saves == old(store.saves) + [Deactivated(old(store.FindById(id)).value, now)]
    ensures forall k :: k != id ==> store.FindById(k) == old(store.FindById(k))
  {
    var found := store.FindById(id);
    if found.None? {
      return Fail(TokenNotFound(id));
    }
    var t := found.value;
    assert forall i :: 0 <= i < |store.rows| ==> (store.rows[i].id == t.id <==> store.rows[i].fcmToken == t.fcmToken) by {
      var j :| 0 <= j < |store.rows| && store.rows[j] == t;
    }
    assert t.id < store.nextId;
    store.Save(Deactivated(t, now));
    o := Pass;
  }

  /**
   * `sendTestNotification`. An absent or empty token is rejected before anything is sent.
   * Otherwise one message is sent, the result is its success, and only a successful send marks
   * the token's row used (when the table has one).
   */
  method SendTestNotification(store: DeviceTokenStore, fcmToken: Option<string>, title: Option<string>,
                              body: Option<string>, send: PushMessage -> bool, now: int)
    returns (r: Result<bool, TokenError>, sent: Option<PushMessage>)
    requires store.Valid()
    modifies store
    ensures store.Valid()
    ensures RequiredToken(fcmToken).None? ==>
      r == Failure(FcmTokenRequired) && sent == None && store.rows == old(store.rows) && store.saves == old(store.saves)
    ensures RequiredToken(fcmToken).Some? ==>
      sent == Some(PushMessage(fcmToken.value, title.GetOr(DefaultTestTitle), body.GetOr(DefaultTestBody))) &&
      r == Success(send(sent.value))
    ensures RequiredToken(fcmToken).Some? && send(sent.value) && old(store.FindByFcmToken(fcmToken.value)).Some? ==>
      store.FindByFcmToken(fcmToken.value) == Some(MarkedUsed(old(store.FindByFcmToken(fcmToken.value)).value, now)) &&
      store.saves == old(store.saves) + [MarkedUsed(old(store.FindByFcmToken(fcmToken.value)).value, now)] &&
      |store.rows| == |old(store.rows)|
    ensures RequiredToken(fcmToken).Some? && !(send(sent.value) && old(store.FindByFcmToken(fcmToken.value)).Some?) ==>
      store.rows == old(store.rows) && store.saves == old(store.saves)
    ensures forall fcm :: RequiredToken(fcmToken) != Some(fcm) ==> store.FindByFcmToken(fcm) == old(store.FindByFcmToken(fcm))
  {
    if RequiredToken(fcmToken).None? {
      return Failure(FcmTokenRequired), None;
    }
    var fcm := fcmToken.value;
    var message := PushMessage(fcm, title.GetOr(DefaultTestTitle), body.GetOr(DefaultTestBody));
    var success := send(message);
    sent := Some(message);
    r := Success(success);
    if success {
      var found := store.FindByFcmToken(fcm);
      if found.Some? {
        var t := found.value;
        assert forall i :: 0 <= i < |store.rows| ==> (store.rows[i].id == t.id <==> store.rows[i].fcmToken == fcm) by {
          var j :| 0 <= j < |store.rows| && store.rows[j] == t;
        }
        assert t.id < store.nextId;
        store.Save(MarkedUsed(t, now));
      }
    }
  }
}
