/** The two tables the URL and click services share, as maps and sequences of rows. */
module Schema {
  import opened Common

  /** UUIDs. */
  type Id = nat

  datatype Row = Row(
    id: Id,
    originalUrl: string,
    shortCode: string,
    customAlias: Option<string>,
    title: Option<string>,
    ownerId: Option<Id>,
    isActive: bool,
    isPublic: bool,
    expiresAt: Option<int>,
    clickCount: nat,
    createdAt: int)

  type Rows = map<Id, Row>

  /** The fields of an update request; None leaves the column alone. */
  datatype Changes = Changes(
    title: Option<string>,
    expiresAt: Option<int>,
    isActive: Option<bool>,
    isPublic: Option<bool>)

  /** What the URL cache stores about a row. */
  datatype Payload = Payload(
    id: Id,
    originalUrl: string,
    shortCode: string,
    customAlias: Option<string>,
    isActive: bool,
    expiresAt: Option<int>)

  /** What a click says about the visitor. */
  datatype ClientInfo = ClientInfo(
    visitorHash: Option<string>,
    country: Option<string>,
    city: Option<string>,
    referrer: Option<string>,
    userAgent: Option<string>,
    browser: Option<string>,
    os: Option<string>,
    device: Option<string>)

  /** The columns of click_events take the values. An insert with a longer one is refused. */
  predicate Fits(info: ClientInfo) {
    && Within(info.visitorHash, 64) && Within(info.country, 2) && Within(info.city, 100)
    && Within(info.referrer, 2048) && Within(info.userAgent, 512)
    && Within(info.browser, 50) && Within(info.os, 50) && Within(info.device, 20)
  }

  /** A row of the click_events table. */
  datatype Click = Click(urlId: Id, createdAt: int, info: ClientInfo)

  function Serialize(row: Row): Payload {
    Payload(row.id, row.originalUrl, row.shortCode, row.customAlias, row.isActive, row.expiresAt)
  }

  function Merge(row: Row, ch: Changes): Row {
    row.(title := if ch.title.Some? then ch.title else row.title,
         expiresAt := if ch.expiresAt.Some? then ch.expiresAt else row.expiresAt,
         isActive := if ch.isActive.Some? then ch.isActive.value else row.isActive,
         isPublic := if ch.isPublic.Some? then ch.isPublic.value else row.isPublic)
  }

  predicate Expired(expiresAt: Option<int>, now: int) {
    expiresAt.Some? && expiresAt.value <= now
  }

  // ---------------------------------------------------------------------------------------------------------------
  // Queries on the short_urls table
  // ---------------------------------------------------------------------------------------------------------------

  /** The two-column test of every lookup by code. */
  predicate Named(row: Row, code: string) {
    row.shortCode == code || row.customAlias == Some(code)
  }

  /** The result of a query read with scalar_one_or_none, which fails on a second row. */
  datatype Lookup = Missing | Found(row: Row) | Ambiguous

  function OneOrNone(rows: Rows, ids: set<Id>): Lookup
    requires ids <= rows.Keys
  {
    if ids == {} then Missing
    else if exists id | id in ids :: ids == {id} then
      var id :| id in ids && ids == {id};
      Found(rows[id])
    else Ambiguous
  }

  function FindByCode(rows: Rows, code: string): Lookup {
    OneOrNone(rows, set id | id in rows && Named(rows[id], code))
  }

  function FindActive(rows: Rows, code: string, now: int): Lookup {
    OneOrNone(rows, set id | id in rows && Named(rows[id], code) && rows[id].isActive
                             && !Expired(rows[id].expiresAt, now))
  }

  predicate AliasIsCode(row: Row) {
    row.customAlias == None || row.customAlias == Some(row.shortCode)
  }

  /** Rows sit under their ids, an alias repeats the short code, and short codes are unique. */
  ghost predicate WellFormed(rows: Rows) {
    && (forall id :: id in rows ==> rows[id].id == id && AliasIsCode(rows[id]))
    && (forall a, b :: a in rows && b in rows && rows[a].shortCode == rows[b].shortCode ==> a == b)
  }

  lemma {:induction false} OnlyMatch(rows: Rows, ids: set<Id>, id: Id)
    requires ids <= rows.Keys && id in ids && forall b :: b in ids ==> b == id
    ensures OneOrNone(rows, ids) == Found(rows[id])
  {
    assert ids == {id};
  }

  /** On well-formed rows a code names at most one row, so no lookup by code fails on a second match. */
  lemma {:induction false} CodesNameOneRow(rows: Rows, code: string, now: int)
    requires WellFormed(rows)
    ensures FindByCode(rows, code) != Ambiguous && FindActive(rows, code, now) != Ambiguous
    ensures FindByCode(rows, code) == Missing <==> forall id :: id in rows ==> rows[id].shortCode != code
    ensures FindByCode(rows, code).Found? ==>
              var r := FindByCode(rows, code).row; r.id in rows && rows[r.id] == r && r.shortCode == code
    ensures forall id :: id in rows && rows[id].shortCode == code ==> FindByCode(rows, code) == Found(rows[id])
    ensures FindActive(rows, code, now)
            == match FindByCode(rows, code)
               case Found(r) => if r.isActive && !Expired(r.expiresAt, now) then Found(r) else Missing
               case other => other
  {
    var named := set id | id in rows && Named(rows[id], code);
    var active := set id | id in rows && Named(rows[id], code) && rows[id].isActive && !Expired(rows[id].expiresAt, now);
    assert active <= named;
    if id :| id in named {
      OnlyMatch(rows, named, id);
      if rows[id].isActive && !Expired(rows[id].expiresAt, now) {
        assert id in active;
        OnlyMatch(rows, active, id);
      }
      forall j | j in rows && rows[j].shortCode == code ensures j == id {
        assert j in named;
      }
    } else {
      assert forall j :: j in rows ==> j !in named;
    }
  }

  /** A deleted URL takes its click events along. */
  function Cascade(clicks: seq<Click>, id: Id): seq<Click> {
    if clicks == [] then []
    else Cascade(clicks[..|clicks| - 1], id)
         + if clicks[|clicks| - 1].urlId == id then [] else [clicks[|clicks| - 1]]
  }

  /** The committed database. */
  class Database {
    var urls: Rows
    var clicks: seq<Click>

    constructor ()
      ensures urls == map[] && clicks == []
    {
      urls, clicks := map[], [];
    }
  }
}
