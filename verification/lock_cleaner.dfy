/** The stale-lock janitor: one check of the Terraform lock table per
    invocation, deleting the lock record only when it is clearly too old. */
module LockCleaner {
  import opened Wrappers

  /** The `Info` attribute of a lock item: absent, a map of fields, or any
      other value (on which `.get` raises). */
  datatype Info = NoInfo | InfoMap(fields: map<string, string>) | InfoOther

  datatype LockItem = LockItem(info: Info)

  /** Table name, lock id and age threshold, as read from the environment. */
  datatype Config = Config(tableName: string, lockId: string, maxAgeSeconds: int)

  /** The values used when the environment sets none. */
  const DefaultConfig: Config := Config("terraform-lock", "global/s3/terraform.tfstate", 300)

  /** Which way one invocation went. `Failed` is an exception the handler
      caught and only printed. */
  datatype Outcome = NoLock | NoCreatedTime | Reclaimed(age: int) | Kept(age: int) | Failed(error: string)

  /** `item.get("Info", {}).get("CreatedTime")`. */
  function CreatedTime(item: LockItem): Result<Option<string>, string> {
    match item.info
    case NoInfo => Success(None)
    case InfoMap(fields) => Success(if "CreatedTime" in fields then Some(fields["CreatedTime"]) else None)
    case InfoOther => Failure("AttributeError")
  }

  /** What the handler does with the table `items` at time `now` (whole
      seconds). `parse` stands for `float()` of the stored timestamp, `None`
      where it raises. */
  function Decide(items: map<string, LockItem>, lockId: string, maxAge: int, now: int,
                  parse: string -> Option<int>): Outcome
  {
    if lockId !in items then NoLock
    else
      match CreatedTime(items[lockId])
      case Failure(e) => Failed(e)
      case Success(created) =>
        if created == None || created == Some("") then NoCreatedTime
        else
          match parse(created.value)
          case None => Failed("ValueError")
          case Some(t) =>
            var age := now - t;
            if age > maxAge then Reclaimed(age) else Kept(age)
  }

  /** The table after an invocation that went the way `o` says. */
  function After(items: map<string, LockItem>, lockId: string, o: Outcome): (r: map<string, LockItem>)
    ensures forall k :: k != lockId ==> (k in r <==> k in items) && (k in r ==> r[k] == items[k])
    ensures o.Reclaimed? ==> lockId !in r
    ensures !o.Reclaimed? ==> r == items
  {
    if o.Reclaimed? then items - {lockId} else items
  }

  /** The lock table: its items by `LockID`, and the keys `delete_item` was
      called with, in order. */
  class LockTable {
    var items: map<string, LockItem>
    var deletes: seq<string>

    constructor (items: map<string, LockItem>)
      ensures this.items == items && deletes == []
    {
      this.items := items;
      deletes := [];
    }

    method GetItem(key: string) returns (item: Option<LockItem>)
      ensures item == if key in items then Some(items[key]) else None
    {
      item := if key in items then Some(items[key]) else None;
    }

    method DeleteItem(key: string)
      modifies this
      ensures items == old(items) - {key}
      ensures deletes == old(deletes) + [key]
    {
      items := items - {key};
      deletes := deletes + [key];
    }
  }

  /** `lambda_handler` of the janitor. At most one `delete_item` call, for
      the configured lock id, and only on a stale record. */
  method LambdaHandler(table: LockTable, config: Config, now: int, parse: string -> Option<int>)
    returns (outcome: Outcome)
    modifies table
    ensures outcome == Decide(old(table.items), config.lockId, config.maxAgeSeconds, now, parse)
    ensures table.items == After(old(table.items), config.lockId, outcome)
    ensures table.deletes == old(table.deletes) + (if outcome.Reclaimed? then [config.lockId] else [])
  {
    var item := table.GetItem(config.lockId);
    if item.None? {
      return NoLock;
    }
    var createdTime: Option<string>;
    match item.value.info {
      case NoInfo => createdTime := None;
      case InfoMap(fields) =>
        createdTime := if "CreatedTime" in fields then Some(fields["CreatedTime"]) else None;
      case InfoOther => return Failed("AttributeError");
    }
    if createdTime.None? || createdTime.value == "" {
      return NoCreatedTime;
    }
    var created := parse(createdTime.value);
    if created.None? {
      return Failed("ValueError");
    }
    var lockAge := now - created.value;
    if lockAge > config.maxAgeSeconds {
      table.DeleteItem(config.lockId);
      outcome := Reclaimed(lockAge);
    } else {
      outcome := Kept(lockAge);
    }
  }

  /** The record is deleted exactly when its timestamp parses and its age is
      strictly greater than the threshold; an age equal to the threshold
      keeps it. */
  lemma ReclaimedIffStale(items: map<string, LockItem>, lockId: string, maxAge: int, now: int,
                          parse: string -> Option<int>)
    ensures Decide(items, lockId, maxAge, now, parse).Reclaimed? <==>
      && lockId in items
      && CreatedTime(items[lockId]).Success?
      && var created := CreatedTime(items[lockId]).value;
      && created.Some? && created.value != ""
      && parse(created.value).Some?
      && now - parse(created.value).value > maxAge
  {
  }

  /** A missing record, a missing or empty timestamp, an unreadable `Info`
      or an unparsable timestamp never lead to a deletion. */
  lemma AmbiguousNeverReclaimed(items: map<string, LockItem>, lockId: string, maxAge: int, now: int,
                                parse: string -> Option<int>)
    ensures lockId !in items ==> Decide(items, lockId, maxAge, now, parse) == NoLock
    ensures lockId in items && CreatedTime(items[lockId]) in {Success(None), Success(Some(""))} ==>
              Decide(items, lockId, maxAge, now, parse) == NoCreatedTime
    ensures lockId in items && CreatedTime(items[lockId]).Failure? ==>
              Decide(items, lockId, maxAge, now, parse).Failed?
    ensures lockId in items && CreatedTime(items[lockId]).Success?
            && CreatedTime(items[lockId]).value.Some?
            && parse(CreatedTime(items[lockId]).value.value) == None
            && CreatedTime(items[lockId]).value.value != "" ==>
              Decide(items, lockId, maxAge, now, parse) == Failed("ValueError")
  {
  }

  /** Running the janitor again after it deleted a stale lock finds no lock,
      whatever the time. */
  lemma SecondRunIsNoOp(items: map<string, LockItem>, lockId: string, maxAge: int, now: int, later: int,
                        parse: string -> Option<int>)
    requires Decide(items, lockId, maxAge, now, parse).Reclaimed?
    ensures Decide(After(items, lockId, Decide(items, lockId, maxAge, now, parse)), lockId, maxAge, later, parse) == NoLock
  {
  }

  /** With the default threshold of 300 seconds, a lock created 301 seconds
      ago is deleted, one created 300 or 299 seconds ago is kept. */
  lemma DefaultThresholdExamples(now: int, stamp: string, parse: string -> Option<int>)
    requires stamp != ""
    ensures var items := map[DefaultConfig.lockId := LockItem(InfoMap(map["CreatedTime" := stamp]))];
      && (parse(stamp) == Some(now - 301) ==>
            Decide(items, DefaultConfig.lockId, DefaultConfig.maxAgeSeconds, now, parse) == Reclaimed(301))
      && (parse(stamp) == Some(now - 300) ==>
            Decide(items, DefaultConfig.lockId, DefaultConfig.maxAgeSeconds, now, parse) == Kept(300))
      && (parse(stamp) == Some(now - 299) ==>
            Decide(items, DefaultConfig.lockId, DefaultConfig.maxAgeSeconds, now, parse) == Kept(299))
  {
  }
}
