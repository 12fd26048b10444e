/**
 * Device tokens: one row per push-notification token, with its activity flag and timestamps,
 * the entity object whose methods update those fields, and the `device_tokens` table.
 */
module DeviceTokens {
  import opened Wrappers
  import opened Seqs
  import Tables

  /** One row of the `device_tokens` table. */
  datatype DeviceTokenRecord = DeviceTokenRecord(
    id: int,
    fcmToken: string,
    deviceId: Option<string>,
    deviceName: Option<string>,
    platform: Option<string>,
    isActive: bool,
    createdAt: Option<int>,
    updatedAt: Option<int>,
    lastUsedAt: Option<int>)

  function TokenId(t: DeviceTokenRecord): int {
    t.id
  }

  function FcmTokenOf(t: DeviceTokenRecord): string {
    t.fcmToken
  }

  function IsActiveToken(t: DeviceTokenRecord): bool {
    t.isActive
  }

  /** `onCreate`: both timestamps set to the insertion time. */
  function Created(t: DeviceTokenRecord, now: int): (r: DeviceTokenRecord)
    ensures r.createdAt == Some(now) && r.updatedAt == Some(now)
    ensures r.(createdAt := t.createdAt, updatedAt := t.updatedAt) == t
  {
    t.(createdAt := Some(now), updatedAt := Some(now))
  }

  /** `markAsUsed`: record a successful delivery at `now`. */
  function MarkedUsed(t: DeviceTokenRecord, now: int): (r: DeviceTokenRecord)
    ensures r.lastUsedAt == Some(now) && r.updatedAt == Some(now)
    ensures r.id == t.id && r.fcmToken == t.fcmToken && r.isActive == t.isActive
    ensures r.(lastUsedAt := t.lastUsedAt, updatedAt := t.updatedAt) == t
  {
    t.(lastUsedAt := Some(now), updatedAt := Some(now))
  }

  /** `deactivate`. */
  function Deactivated(t: DeviceTokenRecord, now: int): (r: DeviceTokenRecord)
    ensures !r.isActive && r.updatedAt == Some(now)
    ensures r.(isActive := t.isActive, updatedAt := t.updatedAt) == t
  {
    t.(isActive := false, updatedAt := Some(now))
  }

  /** `activate`. */
  function Activated(t: DeviceTokenRecord, now: int): (r: DeviceTokenRecord)
    ensures r.isActive && r.updatedAt == Some(now)
    ensures r.(isActive := t.isActive, updatedAt := t.updatedAt) == t
  {
    t.(isActive := true, updatedAt := Some(now))
  }

  /** Marking a token used twice at the same time is marking it once. */
  lemma MarkedUsedIdempotent(t: DeviceTokenRecord, now: int)
    ensures MarkedUsed(MarkedUsed(t, now), now) == MarkedUsed(t, now)
  {
  }

  /**
   * Activation and deactivation only decide the flag: deactivating and then activating a token
   * leaves it active with every column but `updatedAt` as it was, and the last call wins.
   */
  lemma DeactivateThenActivate(t: DeviceTokenRecord, n1: int, n2: int)
    ensures Activated(Deactivated(t, n1), n2) == Activated(t, n2)
    ensures Activated(Deactivated(t, n1), n2).isActive
    ensures Deactivated(Activated(t, n1), n2) == Deactivated(t, n2)
  {
  }

  /** A token object, whose methods update its fields in place. */
  class DeviceToken {
    var id: int
    var fcmToken: string
    var deviceId: Option<string>
    var deviceName: Option<string>
    var platform: Option<string>
    var isActive: bool
    var createdAt: Option<int>
    var updatedAt: Option<int>
    var lastUsedAt: Option<int>

    /** A token built with the builder defaults: active, no timestamps yet. */
    constructor(id: int, fcmToken: string, deviceId: Option<string>, deviceName: Option<string>, platform: Option<string>)
      ensures Record() == DeviceTokenRecord(id, fcmToken, deviceId, deviceName, platform, true, None, None, None)
      ensures isActive
    {
      this.id := id;
      this.fcmToken := fcmToken;
      this.deviceId := deviceId;
      this.deviceName := deviceName;
      this.platform := platform;
      isActive := true;
      createdAt := None;
      updatedAt := None;
      lastUsedAt := None;
    }

    function Record(): DeviceTokenRecord
      reads this
    {
      DeviceTokenRecord(id, fcmToken, deviceId, deviceName, platform, isActive, createdAt, updatedAt, lastUsedAt)
    }

    /** `onCreate`, run before the first insert. */
    method OnCreate(now: int)
      modifies this`createdAt, this`updatedAt
      ensures createdAt == Some(now) && updatedAt == Some(now)
      ensures Record() == Created(old(Record()), now)
    {
      createdAt := Some(now);
      updatedAt := Some(now);
    }

    method MarkAsUsed(now: int)
      modifies this`lastUsedAt, this`updatedAt
      ensures lastUsedAt == Some(now) && updatedAt == Some(now)
      ensures Record() == MarkedUsed(old(Record()), now)
    {
      lastUsedAt := Some(now);
      updatedAt := Some(now);
    }

    method Deactivate(now: int)
      modifies this`isActive, this`updatedAt
      ensures !isActive && updatedAt == Some(now)
      ensures Record() == Deactivated(old(Record()), now)
    {
      isActive := false;
      updatedAt := Some(now);
    }

    method Activate(now: int)
      modifies this`isActive, this`updatedAt
      ensures isActive && updatedAt == Some(now)
      ensures Record() == Activated(old(Record()), now)
    {
      isActive := true;
      updatedAt := Some(now);
    }
  }

  /** The `device_tokens` table: its rows, the next identity value, and the rows saved, in order. */
  class DeviceTokenStore {
    var rows: seq<DeviceTokenRecord>
    var nextId: int
    var saves: seq<DeviceTokenRecord>

    /** Ids are unique and below the next identity value, and `fcm_token` is unique. */
    ghost predicate Valid()
      reads this
    {
      Tables.UniqueKeys(rows, TokenId) && Tables.UniqueKeys(rows, FcmTokenOf) &&
      forall i :: 0 <= i < |rows| ==> rows[i].id < nextId
    }

    constructor()
      ensures Valid() && rows == [] && saves == []
    {
      rows := [];
      nextId := 1;
      saves := [];
    }

    function FindById(id: int): (r: Option<DeviceTokenRecord>)
      reads this
      ensures r.Some? ==> r.value in rows && r.value.id == id
      ensures r.None? <==> forall i :: 0 <= i < |rows| ==> rows[i].id != id
    {
      Tables.Find(rows, TokenId, id)
    }

    /** `findByFcmToken`. */
    function FindByFcmToken(fcm: string): (r: Option<DeviceTokenRecord>)
      reads this
      ensures r.Some? ==> r.value in rows && r.value.fcmToken == fcm
      ensures r.None? <==> forall i :: 0 <= i < |rows| ==> rows[i].fcmToken != fcm
    {
      Tables.Find(rows, FcmTokenOf, fcm)
    }

    /** `findByIsActiveTrue`. */
    function FindByIsActiveTrue(): (r: seq<DeviceTokenRecord>)
      reads this
      ensures forall t :: t in r <==> t in rows && t.isActive
    {
      Filter(rows, IsActiveToken)
    }

    /**
     * `save` of an existing row that keeps its token: the row with the same id is overwritten,
     * every other token value finds the row it found before.
     */
    method Save(t: DeviceTokenRecord)
      requires Valid() && t.id < nextId
      requires forall i :: 0 <= i < |rows| ==> (rows[i].id == t.id <==> rows[i].fcmToken == t.fcmToken)
      modifies this
      ensures Valid() && nextId == old(nextId)
      ensures rows == Tables.Save(old(rows), TokenId, t)
      ensures saves == old(saves) + [t]
      ensures FindById(t.id) == Some(t) && FindByFcmToken(t.fcmToken) == Some(t)
      ensures forall fcm :: fcm != t.fcmToken ==> FindByFcmToken(fcm) == old(FindByFcmToken(fcm))
      ensures forall k :: k != t.id ==> FindById(k) == old(FindById(k))
    {
      Tables.FindAfterSave(rows, TokenId, FcmTokenOf, t);
      Tables.FindAfterSave(rows, TokenId, TokenId, t);
      Tables.SaveKeepsKeysUnique(rows, TokenId, t);
      var saved := Tables.Save(rows, TokenId, t);
      forall i | 0 <= i < |saved| ensures saved[i].id < nextId {
        assert saved[i] in saved;
        if saved[i] != t {
          var j :| 0 <= j < |rows| && rows[j] == saved[i];
        }
      }
      rows := saved;
      saves := saves + [t];
    }

    /** `save` of a new row: the identity column assigns the next id and `onCreate` stamps it. */
    method Insert(t: DeviceTokenRecord, now: int) returns (saved: DeviceTokenRecord)
      requires Valid()
      requires forall i :: 0 <= i < |rows| ==> rows[i].fcmToken != t.fcmToken
      modifies this
      ensures Valid() && nextId == old(nextId) + 1
      ensures saved == Created(t.(id := old(nextId)), now)
      ensures rows == old(rows) + [saved]
      ensures saves == old(saves) + [saved]
      ensures FindByFcmToken(t.fcmToken) == Some(saved)
      ensures forall fcm :: fcm != t.fcmToken ==> FindByFcmToken(fcm) == old(FindByFcmToken(fcm))
    {
      saved := Created(t.(id := nextId), now);
      Tables.FindAfterSave(rows, TokenId, FcmTokenOf, saved);
      assert Tables.Save(rows, TokenId, saved) == rows + [saved];
      rows := rows + [saved];
      nextId := nextId + 1;
      saves := saves + [saved];
    }
  }
}
