/** The full-stream activity log policy of extensions: actions are queued
    while the database is valid, written as rows of the activitylog_full
    table in one transaction (the queue is cleared only once the
    transaction commits), dropped on a database failure, and read back one
    local day at a time.

    The SQL engine is abstracted: the table is a sequence of rows, and the
    results of beginning, stepping and committing are inputs, as are the JSON
    reader and URL parser. */
module FullStreamUiPolicy {
  import opened Wrappers

  // ---------------------------------------------------------------------
  // Parameter keys

  datatype KeyType =
    PARAM_KEY_REASON | PARAM_KEY_DOM_ACTION | PARAM_KEY_URL_TITLE | PARAM_KEY_DETAILS_STRING
    | OtherKeyType(code: int)

  const kKeyReason := "fsuip.reason"
  const kKeyDomainAction := "fsuip.domact"
  const kKeyURLTitle := "fsuip.urltitle"
  const kKeyDetailsString := "fsuip.details"

  /** GetKey: the four known key types have fixed non-empty
      strings; any other type has the empty string. */
  function GetKey(keyType: KeyType): (key: string)
    ensures key == "" <==> keyType.OtherKeyType?
    ensures keyType == PARAM_KEY_REASON ==> key == kKeyReason
    ensures keyType == PARAM_KEY_DOM_ACTION ==> key == kKeyDomainAction
    ensures keyType == PARAM_KEY_URL_TITLE ==> key == kKeyURLTitle
    ensures keyType == PARAM_KEY_DETAILS_STRING ==> key == kKeyDetailsString
  {
    match keyType
    case PARAM_KEY_REASON => kKeyReason
    case PARAM_KEY_DOM_ACTION => kKeyDomainAction
    case PARAM_KEY_URL_TITLE => kKeyURLTitle
    case PARAM_KEY_DETAILS_STRING => kKeyDetailsString
    case OtherKeyType(_) => ""
  }

  // ---------------------------------------------------------------------
  // Actions and rows

  /** A GURL, split where the sanitizer cuts it. */
  datatype Url = InvalidUrl | Url(base: string, query: Option<string>, ref: Option<string>)
  {
    function Spec(): string
      requires Url?
    {
      base + (if query.Some? then "?" + query.value else "") + (if ref.Some? then "#" + ref.value else "")
    }
  }

  /** The URL stored for incognito pages. */
  const kIncognitoUrl := "<incognito>"

  /** An Action; args and other hold their JSON text. */
  datatype Action = Action(
    extensionId: string, time: int, actionType: int, apiName: string,
    args: Option<string>, pageUrl: Url, pageIncognito: bool, pageTitle: string,
    argUrl: Url, argIncognito: bool, other: Option<string>)

  /** A row of activitylog_full; None is NULL. */
  datatype Row = Row(
    extensionId: string, time: int, actionType: int, apiName: string,
    args: Option<string>, pageUrl: Option<string>, pageTitle: Option<string>,
    argUrl: Option<string>, other: Option<string>)

  /** The stored form of a URL: the placeholder for incognito, and without
      query and fragment unless the testing switch is on. */
  function StoredUrl(url: Url, incognito: bool, testingSwitch: bool): (r: Option<string>)
    ensures r.None? <==> url.InvalidUrl?
    ensures url.Url? && incognito ==> r == Some(kIncognitoUrl)
    ensures url.Url? && !incognito && !testingSwitch ==> r == Some(url.base)
    ensures url.Url? && !incognito && testingSwitch ==> r == Some(url.Spec())
  {
    if url.InvalidUrl? then None
    else if incognito then Some(kIncognitoUrl)
    else if testingSwitch then Some(url.Spec())
    else
      var sanitized := Url(url.base, None, None);
      assert sanitized.Spec() == url.base;
      Some(sanitized.Spec())
  }

  /** The row FlushDatabase binds for an action. */
  function RowFor(a: Action, testingSwitch: bool): (r: Row)
    ensures r.extensionId == a.extensionId && r.time == a.time && r.actionType == a.actionType
    ensures r.apiName == a.apiName && r.args == a.args && r.other == a.other
    ensures r.pageTitle.Some? <==> a.pageTitle != "" && !a.pageIncognito
    ensures r.pageTitle.Some? ==> r.pageTitle.value == a.pageTitle
    ensures a.pageIncognito && a.pageUrl.Url? ==> r.pageUrl == Some(kIncognitoUrl)
    ensures a.argIncognito && a.argUrl.Url? ==> r.argUrl == Some(kIncognitoUrl)
  {
    Row(a.extensionId, a.time, a.actionType, a.apiName, a.args,
        StoredUrl(a.pageUrl, a.pageIncognito, testingSwitch),
        if a.pageTitle != "" && !a.pageIncognito then Some(a.pageTitle) else None,
        StoredUrl(a.argUrl, a.argIncognito, testingSwitch),
        a.other)
  }

  ghost predicate RowsFor(rows: seq<Row>, actions: seq<Action>, testingSwitch: bool)
  {
    |rows| == |actions| && forall j :: 0 <= j < |rows| ==> rows[j] == RowFor(actions[j], testingSwitch)
  }

  /** What the JSON reader makes of a text. */
  datatype JsonKind = JsonList | JsonDictionary | JsonOtherKind

  /** DoReadData's conversion of a selected row: args are kept only when
      they read back as a list, other only as a dictionary; NULL text
      columns read as "". */
  function ActionFromRow(extensionId: string, row: Row, readJson: string -> Option<JsonKind>,
                         parseUrl: string -> Url): (a: Action)
    ensures a.extensionId == extensionId && a.time == row.time && a.actionType == row.actionType
    ensures a.apiName == row.apiName
    ensures a.args.Some? <==> row.args.Some? && readJson(row.args.value) == Some(JsonList)
    ensures a.other.Some? <==> row.other.Some? && readJson(row.other.value) == Some(JsonDictionary)
    ensures !a.pageIncognito && !a.argIncognito
  {
    Action(extensionId, row.time, row.actionType, row.apiName,
           if row.args.Some? && readJson(row.args.value) == Some(JsonList) then row.args else None,
           parseUrl(row.pageUrl.GetOr("")), false, row.pageTitle.GetOr(""),
           parseUrl(row.argUrl.GetOr("")), false,
           if row.other.Some? && readJson(row.other.value) == Some(JsonDictionary) then row.other else None)
  }

  /** Writing an action and reading its row back keeps its identity, time,
      type, API name, its args and other when they are a JSON list and a
      JSON dictionary, and the title of a non-incognito page. */
  lemma RowRoundTrip(a: Action, testingSwitch: bool, readJson: string -> Option<JsonKind>,
                     parseUrl: string -> Url)
    requires a.args.Some? ==> readJson(a.args.value) == Some(JsonList)
    requires a.other.Some? ==> readJson(a.other.value) == Some(JsonDictionary)
    requires !a.pageIncognito
    ensures var b := ActionFromRow(a.extensionId, RowFor(a, testingSwitch), readJson, parseUrl);
            b.extensionId == a.extensionId && b.time == a.time && b.actionType == a.actionType &&
            b.apiName == a.apiName && b.args == a.args && b.other == a.other && b.pageTitle == a.pageTitle
  {
  }

  // ---------------------------------------------------------------------
  // Day windows

  const kMicrosecondsPerDay: int := 86_400_000_000
  /** base::Time::Max().ToInternalValue(). */
  const kTimeMax: int := 0x7FFF_FFFF_FFFF_FFFF

  /** The (early, late] internal-time bounds of the local day `daysAgo`
      days before the one starting at `midnight`. */
  function DayBounds(daysAgo: int, midnight: int): (bounds: (int, int))
    requires daysAgo >= 0
    ensures daysAgo == 0 ==> bounds == (midnight, kTimeMax)
    ensures daysAgo > 0 ==> bounds.1 - bounds.0 == kMicrosecondsPerDay && bounds.1 <= midnight
  {
    if daysAgo == 0 then (midnight, kTimeMax)
    else (midnight - daysAgo * kMicrosecondsPerDay, midnight - (daysAgo - 1) * kMicrosecondsPerDay)
  }

  predicate InDay(t: int, daysAgo: int, midnight: int)
    requires daysAgo >= 0
  {
    DayBounds(daysAgo, midnight).0 < t <= DayBounds(daysAgo, midnight).1
  }

  /** Consecutive days abut: each ends where the next later one begins. */
  lemma DayWindowsAbut(daysAgo: int, midnight: int)
    requires daysAgo >= 1
    ensures DayBounds(daysAgo, midnight).1 == DayBounds(daysAgo - 1, midnight).0
  {
  }

  /** Which day a time up to Time::Max falls in. */
  function DayOf(t: int, midnight: int): (d: nat)
  {
    if t > midnight then 0 else (midnight - t) / kMicrosecondsPerDay + 1
  }

  /** The windows partition the times up to Time::Max: a time lies in the
      window of day d exactly when d is its day. */
  lemma InDayIff(t: int, daysAgo: int, midnight: int)
    requires daysAgo >= 0 && t <= kTimeMax
    ensures InDay(t, daysAgo, midnight) <==> daysAgo == DayOf(t, midnight)
  {
    if daysAgo > 0 && t <= midnight {
      var q := (midnight - t) / kMicrosecondsPerDay;
      var r := (midnight - t) % kMicrosecondsPerDay;
      assert midnight - t == q * kMicrosecondsPerDay + r && 0 <= r < kMicrosecondsPerDay;
      if InDay(t, daysAgo, midnight) {
        assert (daysAgo - 1) * kMicrosecondsPerDay <= midnight - t < daysAgo * kMicrosecondsPerDay;
      }
    } else if daysAgo > 0 {
      assert DayBounds(daysAgo, midnight).1 <= midnight;
    }
  }

  // ---------------------------------------------------------------------
  // The policy

  class FullStreamUIPolicy {
    /** queued_actions_. */
    var queuedActions: seq<Action>
    /** The committed rows of activitylog_full. */
    var table: seq<Row>
    /** activity_database()->is_db_valid(). */
    var dbValid: bool
    /** NotifyAction calls on the activity database. */
    var notifications: nat

    /** The activity table persists across sessions, so the rows already in
        the database file when the policy opens it are a parameter. */
    constructor (table: seq<Row>, dbValid: bool)
      ensures queuedActions == [] && this.table == table && this.dbValid == dbValid && notifications == 0
    {
      queuedActions := [];
      this.table := table;
      this.dbValid := dbValid;
      notifications := 0;
    }

    /** QueueAction: only a valid database queues, and tells it so. */
    method QueueAction(action: Action)
      modifies this`queuedActions, this`notifications
      ensures dbValid ==> queuedActions == old(queuedActions) + [action] && notifications == old(notifications) + 1
      ensures !dbValid ==> queuedActions == old(queuedActions) && notifications == old(notifications)
    {
      if dbValid {
        queuedActions := queuedActions + [action];
        notifications := notifications + 1;
      }
    }

    /** OnDatabaseFailure: the queued actions are dropped. */
    method OnDatabaseFailure()
      modifies this`queuedActions
      ensures queuedActions == []
    {
      queuedActions := [];
    }

    /** FlushDatabase: writes every queued action in one transaction.
        `beginOk`, `runOk(i)` (the i-th insert) and `commitOk` are the
        database's answers. Rows and queue change only on commit. */
    method FlushDatabase(beginOk: bool, runOk: nat -> bool, commitOk: bool, testingSwitch: bool)
      returns (ok: bool)
      modifies this`queuedActions, this`table
      ensures ok <==> old(queuedActions) == [] ||
                      (beginOk && commitOk && forall i: nat :: i < |old(queuedActions)| ==> runOk(i))
      ensures ok ==> queuedActions == [] &&
                     exists rows :: RowsFor(rows, old(queuedActions), testingSwitch) && table == old(table) + rows
      ensures !ok ==> queuedActions == old(queuedActions) && table == old(table)
    {
      if queuedActions == [] {
        assert RowsFor([], queuedActions, testingSwitch) && table == table + [];
        return true;
      }
      if !beginOk {
        return false;
      }
      var pending: seq<Row> := [];
      var i := 0;
      while i != |queuedActions|
        invariant 0 <= i <= |queuedActions|
        invariant RowsFor(pending, queuedActions[..i], testingSwitch)
        invariant forall j: nat :: j < i ==> runOk(j)
      {
        var row := RowFor(queuedActions[i], testingSwitch);
        if !runOk(i) {
          return false;
        }
        pending := pending + [row];
        i := i + 1;
      }
      if !commitOk {
        return false;
      }
      assert queuedActions[..i] == queuedActions;
      table := table + pending;
      queuedActions := [];
      return true;
    }

    /** DoReadData: the actions of `extensionId` stored within day
        `daysAgo`, converted from their rows; nothing without a database. */
    method DoReadData(extensionId: string, daysAgo: int, midnight: int, hasDatabase: bool,
                      readJson: string -> Option<JsonKind>, parseUrl: string -> Url)
      returns (actions: seq<Action>)
      requires daysAgo >= 0
      ensures !hasDatabase ==> actions == []
      ensures hasDatabase ==> actions == Selected(table, extensionId, DayBounds(daysAgo, midnight), readJson, parseUrl)
    {
      actions := [];
      if !hasDatabase {
        return;
      }
      var bounds := DayBounds(daysAgo, midnight);
      var i := 0;
      while i < |table|
        invariant 0 <= i <= |table|
        invariant actions == Selected(table[..i], extensionId, bounds, readJson, parseUrl)
      {
        var row := table[i];
        assert table[..i + 1] == table[..i] + [row];
        SelectedSnoc(table[..i], row, extensionId, bounds, readJson, parseUrl);
        if row.extensionId == extensionId && bounds.0 < row.time <= bounds.1 {
          actions := actions + [ActionFromRow(extensionId, row, readJson, parseUrl)];
        }
        i := i + 1;
      }
      assert table[..i] == table;
    }
  }

  /** The query `extension_id=? AND time>? AND time<=?` over the rows,
      each converted to an action. */
  function Selected(rows: seq<Row>, extensionId: string, bounds: (int, int),
                    readJson: string -> Option<JsonKind>, parseUrl: string -> Url): (r: seq<Action>)
    ensures |r| <= |rows|
    ensures forall a :: a in r ==> a.extensionId == extensionId && bounds.0 < a.time <= bounds.1
  {
    if rows == [] then []
    else
      (if rows[0].extensionId == extensionId && bounds.0 < rows[0].time <= bounds.1
       then [ActionFromRow(extensionId, rows[0], readJson, parseUrl)] else [])
      + Selected(rows[1..], extensionId, bounds, readJson, parseUrl)
  }

  lemma {:induction false} SelectedSnoc(rows: seq<Row>, row: Row, extensionId: string, bounds: (int, int),
                                        readJson: string -> Option<JsonKind>, parseUrl: string -> Url)
    ensures Selected(rows + [row], extensionId, bounds, readJson, parseUrl) ==
            Selected(rows, extensionId, bounds, readJson, parseUrl) +
            (if row.extensionId == extensionId && bounds.0 < row.time <= bounds.1
             then [ActionFromRow(extensionId, row, readJson, parseUrl)] else [])
  {
    if rows != [] {
      assert (rows + [row])[1..] == rows[1..] + [row];
      SelectedSnoc(rows[1..], row, extensionId, bounds, readJson, parseUrl);
    } else {
      assert [row][1..] == [];
    }
  }

  /** Every row of the extension stored within a day is read back with
      that day. */
  lemma {:induction false} SelectedFindsEveryRow(rows: seq<Row>, k: nat, extensionId: string, bounds: (int, int),
                                                 readJson: string -> Option<JsonKind>, parseUrl: string -> Url)
    requires k < |rows| && rows[k].extensionId == extensionId && bounds.0 < rows[k].time <= bounds.1
    ensures ActionFromRow(extensionId, rows[k], readJson, parseUrl) in Selected(rows, extensionId, bounds, readJson, parseUrl)
  {
    if k > 0 {
      SelectedFindsEveryRow(rows[1..], k - 1, extensionId, bounds, readJson, parseUrl);
    }
  }
}
