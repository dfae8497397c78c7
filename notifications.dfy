/**
 * The two `UNUserNotificationCenterDelegate` handlers of the application
 * delegate (FirebasePushMessaging/FirebasePushMessagingApp.swift, lines 73-95).
 *
 * What the handlers do to the outside world (calling a completion handler,
 * posting to the default `NotificationCenter`) is recorded as events appended
 * to a sequential log. `Effects` says what one callback adds to the log and
 * `Trace` what a whole run of callbacks adds; the lemmas below prove, for every
 * run, that each callback completes exactly once and that every post carries
 * the tapped notification's payload unchanged, right before its completion.
 */
module Notifications {

  /** A value of a notification payload; the payload is passed along without being inspected. */
  datatype Value =
    | Text(text: string)
    | Number(number: int)
    | Decimal(decimal: real)
    | Flag(flag: bool)
    | Null
    | Items(items: seq<Value>)
    | Dict(entries: map<string, Value>)  // a nested dictionary, such as the `aps` entry

  /** `userInfo`: string keys to arbitrary values. */
  type Payload = map<string, Value>

  datatype Content = Content(title: string, body: string, userInfo: Payload)
  datatype Request = Request(identifier: string, content: Content)
  datatype Notification = Notification(request: Request)
  datatype Response = Response(notification: Notification, actionIdentifier: string)

  /** The members of `UNNotificationPresentationOptions`. */
  datatype PresentationOption = Badge | Sound | Alert | List | Banner

  /** The name under which a tapped notification's payload is broadcast. */
  const DidReceiveRemoteNotification: string := "didReceiveRemoteNotification"

  /** What the handlers do, in the order they do it. */
  datatype Event =
    | PresentationCompleted(options: set<PresentationOption>)  // the `willPresent` completion handler was called
    | Posted(name: string, userInfo: Payload)                   // `NotificationCenter.default.post(name:object:userInfo:)`
    | ResponseCompleted                                          // the `didReceive` completion handler was called

  /** A callback the notification center makes into the delegate. */
  datatype Delivery =
    | Foreground(notification: Notification)  // `userNotificationCenter(_:willPresent:withCompletionHandler:)`
    | Interaction(response: Response)         // `userNotificationCenter(_:didReceive:withCompletionHandler:)`

  predicate IsCompletion(e: Event) {
    e.PresentationCompleted? || e.ResponseCompleted?
  }

  /** The options a foreground notification is shown with, whatever the notification. */
  function PresentationOptions(notification: Notification): set<PresentationOption>
  {
    {Banner, List, Sound}
  }

  /** Every foreground notification gets the same answer: banner, list and sound, never badge or alert. */
  lemma PresentationIgnoresNotification(n1: Notification, n2: Notification)
    ensures PresentationOptions(n1) == PresentationOptions(n2)
    ensures Banner in PresentationOptions(n1) && List in PresentationOptions(n1) && Sound in PresentationOptions(n1)
    ensures Badge !in PresentationOptions(n1) && Alert !in PresentationOptions(n1)
  {
  }

  /** The number of completion-handler calls in a log. */
  function Completions(log: seq<Event>): (n: nat)
    ensures n <= |log|
  {
    if |log| == 0 then 0
    else Completions(log[..|log| - 1]) + (if IsCompletion(log[|log| - 1]) then 1 else 0)
  }

  /** The payloads posted in a log, in order. */
  function Posts(log: seq<Event>): (ps: seq<Payload>)
    ensures |ps| <= |log|
  {
    if |log| == 0 then []
    else Posts(log[..|log| - 1]) + (if log[|log| - 1].Posted? then [log[|log| - 1].userInfo] else [])
  }

  /** The payloads of the tapped notifications among some deliveries, in order. */
  function TappedPayloads(ds: seq<Delivery>): (ps: seq<Payload>)
    ensures |ps| <= |ds|
  {
    if |ds| == 0 then []
    else
      var d := ds[|ds| - 1];
      TappedPayloads(ds[..|ds| - 1]) + (if d.Interaction? then [d.response.notification.request.content.userInfo] else [])
  }

  /** What handling one delivery appends to the log. */
  function Effects(d: Delivery): (r: seq<Event>)
    ensures 1 <= |r| && r[|r| - 1] == (if d.Foreground? then PresentationCompleted({Banner, List, Sound}) else ResponseCompleted)
    ensures forall k :: 0 <= k < |r| - 1 ==> !IsCompletion(r[k])
  {
    match d
    case Foreground(n) => [PresentationCompleted(PresentationOptions(n))]
    case Interaction(resp) => [Posted(DidReceiveRemoteNotification, resp.notification.request.content.userInfo), ResponseCompleted]
  }

  /** What handling a run of deliveries appends to the log. */
  function Trace(ds: seq<Delivery>): (log: seq<Event>)
    ensures |ds| <= |log| <= 2 * |ds|
  {
    if |ds| == 0 then [] else Trace(ds[..|ds| - 1]) + Effects(ds[|ds| - 1])
  }

  lemma {:induction false} CompletionsConcat(a: seq<Event>, b: seq<Event>)
    ensures Completions(a + b) == Completions(a) + Completions(b)
    decreases |b|
  {
    if |b| == 0 {
      assert a + b == a;
    } else {
      assert (a + b)[..|a + b| - 1] == a + b[..|b| - 1];
      CompletionsConcat(a, b[..|b| - 1]);
    }
  }

  lemma {:induction false} PostsConcat(a: seq<Event>, b: seq<Event>)
    ensures Posts(a + b) == Posts(a) + Posts(b)
    decreases |b|
  {
    if |b| == 0 {
      assert a + b == a;
    } else {
      assert (a + b)[..|a + b| - 1] == a + b[..|b| - 1];
      PostsConcat(a, b[..|b| - 1]);
    }
  }

  /** Handling one delivery calls its completion handler exactly once. */
  lemma EffectsCompleteOnce(d: Delivery)
    ensures Completions(Effects(d)) == 1
  {
    var r := Effects(d);
    assert r[..|r| - 1] == [] || r[..|r| - 1] == [r[0]];
  }

  /** Over any run of deliveries, every one of them is completed exactly once. */
  lemma {:induction false} EachDeliveryCompletedOnce(ds: seq<Delivery>)
    ensures Completions(Trace(ds)) == |ds|
  {
    if |ds| > 0 {
      EachDeliveryCompletedOnce(ds[..|ds| - 1]);
      CompletionsConcat(Trace(ds[..|ds| - 1]), Effects(ds[|ds| - 1]));
      EffectsCompleteOnce(ds[|ds| - 1]);
    }
  }

  /** Over any run of deliveries, the posts are exactly the tapped payloads, unchanged and in order. */
  lemma {:induction false} PostsAreTappedPayloads(ds: seq<Delivery>)
    ensures Posts(Trace(ds)) == TappedPayloads(ds)
  {
    if |ds| > 0 {
      var d := ds[|ds| - 1];
      PostsAreTappedPayloads(ds[..|ds| - 1]);
      PostsConcat(Trace(ds[..|ds| - 1]), Effects(d));
      var r := Effects(d);
      assert r[..|r| - 1] == [] || r[..|r| - 1] == [r[0]];
      if d.Interaction? {
        assert r[..1][..0] == [];
      }
    }
  }

  /** Every post is named `didReceiveRemoteNotification` and is followed at once by the tap's completion. */
  lemma {:induction false} PostThenComplete(ds: seq<Delivery>, k: nat)
    requires k < |Trace(ds)| && Trace(ds)[k].Posted?
    ensures Trace(ds)[k].name == DidReceiveRemoteNotification
    ensures k + 1 < |Trace(ds)| && Trace(ds)[k + 1] == ResponseCompleted
  {
    var front := Trace(ds[..|ds| - 1]);
    var r := Effects(ds[|ds| - 1]);
    assert Trace(ds) == front + r;
    if k < |front| {
      PostThenComplete(ds[..|ds| - 1], k);
    }
  }

  /**
   * The application delegate, reduced to what its notification handlers touch:
   * the log of what they have done and, as a ghost, the deliveries so far.
   */
  class AppDelegate {
    var events: seq<Event>
    ghost var deliveries: seq<Delivery>

    ghost predicate Valid()
      reads this
    {
      events == Trace(deliveries)
    }

    constructor ()
      ensures Valid() && deliveries == [] && events == []
    {
      events := [];
      deliveries := [];
    }

    /** `userNotificationCenter(_:willPresent:withCompletionHandler:)` */
    method WillPresent(notification: Notification)
      requires Valid()
      modifies this
      ensures Valid() && deliveries == old(deliveries) + [Foreground(notification)]
      ensures events == old(events) + [PresentationCompleted({Banner, List, Sound})]
      ensures Completions(events) == Completions(old(events)) + 1
      ensures Completions(events) == |deliveries| && Posts(events) == TappedPayloads(deliveries)
    {
      events := events + [PresentationCompleted(PresentationOptions(notification))];
      deliveries := deliveries + [Foreground(notification)];
      assert deliveries[..|deliveries| - 1] == old(deliveries);
      CompletionsConcat(old(events), [PresentationCompleted({Banner, List, Sound})]);
      EachDeliveryCompletedOnce(deliveries);
      PostsAreTappedPayloads(deliveries);
    }

    /** `userNotificationCenter(_:didReceive:withCompletionHandler:)` */
    method DidReceive(response: Response)
      requires Valid()
      modifies this
      ensures Valid() && deliveries == old(deliveries) + [Interaction(response)]
      ensures events == old(events) + [Posted(DidReceiveRemoteNotification, response.notification.request.content.userInfo), ResponseCompleted]
      ensures Completions(events) == Completions(old(events)) + 1
      ensures Posts(events) == Posts(old(events)) + [response.notification.request.content.userInfo]
      ensures Completions(events) == |deliveries| && Posts(events) == TappedPayloads(deliveries)
    {
      var userInfo := response.notification.request.content.userInfo;
      events := events + [Posted(DidReceiveRemoteNotification, userInfo)];
      events := events + [ResponseCompleted];
      deliveries := deliveries + [Interaction(response)];
      assert deliveries[..|deliveries| - 1] == old(deliveries);
      var added := [Posted(DidReceiveRemoteNotification, userInfo), ResponseCompleted];
      assert events == old(events) + added;
      CompletionsConcat(old(events), added);
      PostsConcat(old(events), added);
      assert added[..1] == [added[0]] && added[..1][..0] == [];
      EachDeliveryCompletedOnce(deliveries);
      PostsAreTappedPayloads(deliveries);
    }
  }

  /** The scenario of a tap on `{"msg": "hello"}`: the payload is posted unchanged, then completed. */
  method TapScenario() returns (log: seq<Event>)
    ensures log == [Posted(DidReceiveRemoteNotification, map["msg" := Text("hello")]), ResponseCompleted]
  {
    var delegate := new AppDelegate();
    var content := Content("", "", map["msg" := Text("hello")]);
    delegate.DidReceive(Response(Notification(Request("", content)), ""));
    log := delegate.events;
  }
}
