/** The decision logic of the create and dispatch requests, without the
    HTTP layer: a create with no payload is refused before the store is
    touched; a dispatch for an unknown id is refused before anything is
    sent; otherwise each recipient gets one send and the outcome is
    reported per address and as "<k>/<n> emails sent". */
module Handlers {
  import opened Wrappers
  import opened Notifications
  import opened Persistence
  import opened Store
  import opened Dispatch

  datatype ApiError = PayloadRequired | UnknownNotificationId

  /** The message of an error response; the two errors read differently. */
  function ErrorMessage(e: ApiError): (msg: string)
    ensures e.PayloadRequired? <==> msg == "payload is required"
    ensures e.UnknownNotificationId? <==> msg == "unknown notification id"
  {
    match e
    case PayloadRequired => "payload is required"
    case UnknownNotificationId => "unknown notification id"
  }

  /** A create request's payload is usable when it is present and not
      empty (a missing payload reads as `None`). */
  function ValidatePayload(payload: Option<string>): (r: Result<string, ApiError>)
    ensures r.Ok? <==> payload.Some? && payload.value != ""
    ensures r.Ok? ==> r.value == payload.value
    ensures r.Err? ==> r.error == PayloadRequired && ErrorMessage(r.error) == "payload is required"
  {
    if payload.None? || payload.value == "" then Err(PayloadRequired)
    else Ok(payload.value)
  }

  /** Create: refuse a missing or empty payload with no change to the store
      or the file; otherwise file a new record and return its id. */
  method SetNotification(s: NotificationStore, payload: Option<string>,
                         name: Option<string>, description: Option<string>, token: string)
    returns (r: Result<string, ApiError>)
    requires s.Valid()
    modifies s, s.disk
    ensures s.Valid()
    ensures r.Err? <==> payload.None? || payload.value == ""
    ensures r.Err? ==> r.error == PayloadRequired && ErrorMessage(r.error) == "payload is required"
    ensures r.Err? ==> s.store == old(s.store) && s.disk.file == old(s.disk.file)
    ensures r.Ok? ==> r.value in s.store && s.store[r.value] == Notification(payload.value, name, description, r.value)
    ensures r.Ok? ==> forall k :: k in old(s.store) && k != r.value ==> k in s.store && s.store[k] == old(s.store)[k]
    ensures r.Ok? ==> && r.value == NotificationId(token, s.hexDigest(payload.value))
                      && s.store == Added(old(s.store), r.value, NewNotification(payload.value, name, description))
                      && s.disk.file == Some(EncodeStore(s.store))
  {
    var checked := ValidatePayload(payload);
    if checked.Err? {
      return Err(checked.error);
    }
    var id := s.AddNotification(NewNotification(checked.value, name, description), token);
    return Ok(id);
  }

  datatype DispatchReport = DispatchReport(message: string, emailStatus: map<string, bool>)

  /** Dispatch: look the notification up, then send its rendered content
      once to each entry of `emails`, in order, recording each outcome
      under its address. `calls` lists the sends made, as (address,
      content) pairs. */
  method SendNotifications(s: NotificationStore, notifId: Option<string>, emails: seq<string>,
                           send: (string, string) -> int)
    returns (r: Result<DispatchReport, ApiError>, calls: seq<(string, string)>)
    ensures r.Err? <==> notifId.None? || notifId.value !in s.store
    ensures r.Err? ==> r.error == UnknownNotificationId && calls == []
    ensures r.Err? ==> ErrorMessage(r.error) == "unknown notification id"
    ensures r.Ok? ==> calls == SendCalls(emails, RenderEmail(s.store[notifId.value]))
    ensures r.Ok? ==> r.value.emailStatus == StatusMap(emails, RenderEmail(s.store[notifId.value]), send)
    ensures r.Ok? ==> r.value.emailStatus.Keys == Addresses(emails)
    ensures r.Ok? ==> forall e :: e in r.value.emailStatus ==>
                        r.value.emailStatus[e] == (send(e, RenderEmail(s.store[notifId.value])) > 0)
    ensures r.Ok? ==> r.value.message == Summary(SuccessCount(r.value.emailStatus), |emails|)
  {
    var notification := if notifId.None? then None else s.Get(notifId.value);
    if notification.None? {
      return Err(UnknownNotificationId), [];
    }
    ghost var rendered := RenderEmail(s.store[notifId.value]);
    assert RenderEmail(notification.value) == rendered;
    var emailSuccess: map<string, bool> := map[];
    calls := [];
    for i := 0 to |emails|
      invariant calls == SendCalls(emails[..i], rendered)
      invariant emailSuccess == StatusMap(emails[..i], rendered, send)
    {
      var content := RenderEmail(notification.value);
      var success := send(emails[i], content);
      calls := calls + [(emails[i], content)];
      DispatchStep(emails, i, content, send);
      emailSuccess := emailSuccess[emails[i] := success > 0];
    }
    assert emails[..|emails|] == emails;
    var successEmailCount := SuccessCount(emailSuccess);
    var message := Summary(successEmailCount, |emails|);
    return Ok(DispatchReport(message, emailSuccess)), calls;
  }
}
