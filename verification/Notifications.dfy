/** Email and in-app notifications with an hourly email throttle (apps/notifications). */
module Notifications {
  import opened Prelude
  import opened Ids

  type TenantId = nat

  /** Times are in seconds. */
  const HOUR := 3600

  datatype Channel = Email | InApp

  datatype Recipient = Recipient(id: UserId, tenant: Option<TenantId>)

  datatype Notification = Notification(tenant: TenantId, user: UserId, topic: string, channel: Channel,
                                       sentAt: Option<int>, failed: bool)

  /** An email of the topic sent to the user, as a query in one tenant sees it. */
  predicate SentTo(n: Notification, tenant: TenantId, user: UserId, topic: string) {
    n.tenant == tenant && n.user == user && n.topic == topic && n.channel.Email? && n.sentAt.Some?
  }

  /** No email of this topic reached this user in the hour before now; a user without tenant matches no row. */
  predicate ShouldSendEmailNow(rows: seq<Notification>, topic: string, user: Recipient, now: int) {
    !(user.tenant.Some? && exists i :: 0 <= i < |rows| && SentTo(rows[i], user.tenant.value, user.id, topic)
                                       && rows[i].sentAt.value >= now - HOUR)
  }

  /** One call: who, what, when the throttle is asked, when delivery ends, and whether it succeeds. */
  datatype Call = Call(user: Recipient, topic: string, asked: int, delivered: int, succeeds: bool)

  function EmailRow(tenant: TenantId, c: Call): Notification {
    Notification(tenant, c.user.id, c.topic, Email, if c.succeeds then Some(c.delivered) else None, !c.succeeds)
  }

  function InAppRow(tenant: TenantId, c: Call): Notification {
    Notification(tenant, c.user.id, c.topic, InApp, None, false)
  }

  function Send(rows: seq<Notification>, tenant: TenantId, c: Call): seq<Notification> {
    (if ShouldSendEmailNow(rows, c.topic, c.user, c.asked) then rows + [EmailRow(tenant, c)] else rows)
    + [InAppRow(tenant, c)]
  }

  // ----- what one call leaves in the table

  /** An email of the topic reached the user within the last 3600 seconds, in the user's own tenant. */
  ghost predicate MailedLately(rows: seq<Notification>, c: Call) {
    exists n :: n in rows && Some(n.tenant) == c.user.tenant && n.user == c.user.id && n.topic == c.topic
                && n.channel == Email && n.sentAt.Some? && n.sentAt.value >= c.asked - 3600
  }

  ghost predicate IsEmailOf(n: Notification, tenant: TenantId, c: Call) {
    && n.tenant == tenant && n.user == c.user.id && n.topic == c.topic && n.channel == Email
    && (if c.succeeds then n.sentAt == Some(c.delivered) && !n.failed else n.sentAt == None && n.failed)
  }

  ghost predicate IsInAppOf(n: Notification, tenant: TenantId, c: Call) {
    n.tenant == tenant && n.user == c.user.id && n.topic == c.topic && n.channel == InApp && n.sentAt == None
        && !n.failed
  }

  /** Either an email and an in-app record are added, in this order, or the in-app record alone. */
  ghost predicate Adds(before: seq<Notification>, after: seq<Notification>, tenant: TenantId, c: Call, mailed: bool) {
    && before <= after && |after| == |before| + (if mailed then 2 else 1)
    && (mailed ==> IsEmailOf(after[|before|], tenant, c))
    && IsInAppOf(after[|after| - 1], tenant, c)
  }

  /** A call sends an email exactly when none of the topic reached the user within the hour. */
  lemma SendIsExact(rows: seq<Notification>, tenant: TenantId, c: Call)
    ensures Adds(rows, Send(rows, tenant, c), tenant, c, !MailedLately(rows, c))
  {
    if MailedLately(rows, c) {
      var n :| n in rows && Some(n.tenant) == c.user.tenant && n.user == c.user.id && n.topic == c.topic
               && n.channel == Email && n.sentAt.Some? && n.sentAt.value >= c.asked - 3600;
      var i :| 0 <= i < |rows| && rows[i] == n;
      assert SentTo(rows[i], c.user.tenant.value, c.user.id, c.topic);
    } else {
      forall i | 0 <= i < |rows| && c.user.tenant.Some? && SentTo(rows[i], c.user.tenant.value, c.user.id, c.topic)
        ensures rows[i].sentAt.value < c.asked - HOUR
      {
        assert rows[i] in rows;
      }
    }
  }

  /** The notification service of one tenant over the shared table. */
  class NotificationService {
    const tenant: TenantId
    var rows: seq<Notification>

    constructor (tenant: TenantId)
      ensures this.tenant == tenant && rows == []
    {
      this.tenant := tenant;
      rows := [];
    }

    method SendEmailNotification(c: Call) returns (n: Notification)
      modifies this
      ensures n == EmailRow(tenant, c) && rows == old(rows) + [n]
    {
      n := Notification(tenant, c.user.id, c.topic, Email, None, false);
      rows := rows + [n];
      if c.succeeds {
        n := n.(sentAt := Some(c.delivered));
      } else {
        n := n.(failed := true);
      }
      rows := rows[|rows| - 1 := n];
    }

    method SendInAppNotification(c: Call) returns (n: Notification)
      modifies this
      ensures n == InAppRow(tenant, c) && rows == old(rows) + [n]
    {
      n := InAppRow(tenant, c);
      rows := rows + [n];
    }

    method AskThrottle(topic: string, user: Recipient, now: int) returns (send: bool)
      ensures send == ShouldSendEmailNow(rows, topic, user, now)
    {
      send := true;
      for i := 0 to |rows|
        invariant send == ShouldSendEmailNow(rows[..i], topic, user, now)
      {
        if user.tenant.Some? && SentTo(rows[i], user.tenant.value, user.id, topic)
            && rows[i].sentAt.value >= now - HOUR {
          assert rows[..i + 1][i] == rows[i];
          send := false;
        } else {
          assert forall j :: 0 <= j < i ==> rows[..i][j] == rows[..i + 1][j];
        }
      }
      assert rows[..|rows|] == rows;
    }

    method SendNotification(c: Call) returns (results: seq<Notification>)
      modifies this
      ensures rows == Send(old(rows), tenant, c) && rows == old(rows) + results
      ensures Adds(old(rows), rows, tenant, c, !MailedLately(old(rows), c))
    {
      SendIsExact(rows, tenant, c);
      results := [];
      var send := AskThrottle(c.topic, c.user, c.asked);
      if send {
        var email := SendEmailNotification(c);
        results := results + [email];
      }
      var inApp := SendInAppNotification(c);
      results := results + [inApp];
    }
  }

  function Run(tenant: TenantId, calls: seq<Call>): seq<Notification> {
    if calls == [] then [] else Send(Run(tenant, calls[..|calls| - 1]), tenant, calls[|calls| - 1])
  }

  // ----- over every run

  /** The clock never runs back, within a call or between calls. */
  ghost predicate Clocked(calls: seq<Call>) {
    && (forall i :: 0 <= i < |calls| ==> calls[i].asked <= calls[i].delivered)
    && (forall i, j :: 0 <= i < j < |calls| ==> calls[i].delivered <= calls[j].asked)
  }

  /** Any two emails of one topic that reached the user lie more than an hour apart. */
  ghost predicate SpacedFor(rows: seq<Notification>, user: UserId) {
    forall i, j :: 0 <= i < j < |rows| && rows[i].user == user && rows[i].sentAt.Some?
                   && SentTo(rows[j], rows[i].tenant, user, rows[i].topic) ==>
      rows[j].sentAt.value - rows[i].sentAt.value > HOUR
  }

  lemma SendKeepsSpaced(rows: seq<Notification>, tenant: TenantId, c: Call, user: UserId)
    requires SpacedFor(rows, user) && c.asked <= c.delivered && (c.user.id == user ==> c.user.tenant == Some(tenant))
    requires forall i :: 0 <= i < |rows| ==>
            rows[i].tenant == tenant && (rows[i].sentAt.Some? ==> rows[i].channel.Email?)
    ensures SpacedFor(Send(rows, tenant, c), user)
  {
    var next := Send(rows, tenant, c);
    forall i, j | 0 <= i < j < |next| && next[i].user == user && next[i].sentAt.Some?
                  && SentTo(next[j], next[i].tenant, user, next[i].topic)
      ensures next[j].sentAt.value - next[i].sentAt.value > HOUR
    {
      assert i < |rows| && next[i] == rows[i];
      if j < |rows| {
        assert next[j] == rows[j];
      } else {
        assert SentTo(rows[i], tenant, user, c.topic);
      }
    }
  }

  /** The throttle holds over every run for each user of the service's tenant, whoever else is written to. */
  lemma {:induction false} EmailsAreSpaced(tenant: TenantId, calls: seq<Call>, user: UserId)
    requires Clocked(calls)
    requires forall i :: 0 <= i < |calls| && calls[i].user.id == user ==> calls[i].user.tenant == Some(tenant)
    ensures SpacedFor(Run(tenant, calls), user)
    ensures forall n :: n in Run(tenant, calls) ==> n.tenant == tenant && (n.sentAt.Some? ==> n.channel.Email?)
  {
    if calls != [] {
      EmailsAreSpaced(tenant, calls[..|calls| - 1], user);
      SendKeepsSpaced(Run(tenant, calls[..|calls| - 1]), tenant, calls[|calls| - 1], user);
    }
  }

  /** A user of another tenant, or of none, is never throttled: every call emails again. */
  lemma {:induction false} ForeignUsersAreNeverThrottled(tenant: TenantId, calls: seq<Call>, c: Call)
    requires c.user.tenant != Some(tenant)
    ensures forall n :: n in Run(tenant, calls) ==> n.tenant == tenant
    ensures ShouldSendEmailNow(Run(tenant, calls), c.topic, c.user, c.asked)
  {
    if calls != [] {
      ForeignUsersAreNeverThrottled(tenant, calls[..|calls| - 1], c);
    }
  }

  /** So over every run each call to such a user adds an email, however often it is repeated. */
  lemma ForeignUsersAreAlwaysMailed(tenant: TenantId, calls: seq<Call>, c: Call)
    requires c.user.tenant != Some(tenant)
    ensures Adds(Run(tenant, calls), Run(tenant, calls + [c]), tenant, c, true)
  {
    ForeignUsersAreNeverThrottled(tenant, calls, c);
    assert (calls + [c])[..|calls|] == calls;
    SendIsExact(Run(tenant, calls), tenant, c);
  }

  function CountInApp(rows: seq<Notification>): nat {
    if rows == [] then 0
    else CountInApp(rows[..|rows| - 1]) + if rows[|rows| - 1].channel.InApp? then 1 else 0
  }

  lemma CountInAppAppend(rows: seq<Notification>, n: Notification)
    ensures CountInApp(rows + [n]) == CountInApp(rows) + if n.channel.InApp? then 1 else 0
  {
    assert (rows + [n])[..|rows|] == rows;
  }

  /** Every call leaves exactly one in-app record, throttled or not. */
  lemma {:induction false} OneInAppRecordPerCall(tenant: TenantId, calls: seq<Call>)
    ensures CountInApp(Run(tenant, calls)) == |calls|
  {
    if calls != [] {
      var rows, c := Run(tenant, calls[..|calls| - 1]), calls[|calls| - 1];
      OneInAppRecordPerCall(tenant, calls[..|calls| - 1]);
      CountInAppAppend(rows, EmailRow(tenant, c));
      CountInAppAppend(rows, InAppRow(tenant, c));
      CountInAppAppend(rows + [EmailRow(tenant, c)], InAppRow(tenant, c));
    }
  }
}
