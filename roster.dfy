/**
 * Volunteer events and their rosters: the event document, the set-union
 * append the store applies on registration, the guards of a registration,
 * the post-event form, and the views the events page and the "My Events"
 * page derive from the event list and the session.
 */
module Roster {
  import opened Wrappers
  import opened Session

  /** The store-assigned document id of an event. */
  type EventId = string

  /** An event document of the "volunteer-events" collection. */
  datatype Event = Event(
    title: string,
    organizer: string,
    date: string,
    location: string,
    description: string,
    maxVolunteers: int,
    volunteers: seq<string>,
    createdBy: string)

  predicate NoDuplicates<T(==)>(s: seq<T>)
  {
    forall i, j :: 0 <= i < j < |s| ==> s[i] != s[j]
  }

  /**
   * The store's `arrayUnion(uid)` on a roster: the uid is appended unless it is
   * already present. The existing entries keep their order.
   */
  function ArrayUnion(roster: seq<string>, uid: string): (r: seq<string>)
    ensures forall x :: x in r <==> x in roster || x == uid
    ensures |roster| <= |r| && r[..|roster|] == roster
    ensures |r| == if uid in roster then |roster| else |roster| + 1
    ensures NoDuplicates(roster) ==> NoDuplicates(r)
  {
    if uid in roster then roster else roster + [uid]
  }

  /** Appending the same uid a second time leaves the roster as the first append did. */
  lemma ArrayUnionIdempotent(roster: seq<string>, uid: string)
    ensures ArrayUnion(ArrayUnion(roster, uid), uid) == ArrayUnion(roster, uid)
  {
  }

  /**
   * The capacity the registration guard keeps: at most maxVolunteers entries.
   * An event posted with a capacity below zero has an empty roster that no
   * registration can join, which is why the empty roster is allowed outright.
   */
  predicate WithinCapacity(e: Event)
  {
    |e.volunteers| <= e.maxVolunteers || e.volunteers == []
  }

  /** What every event this client creates or updates satisfies, applied sequentially. */
  predicate Consistent(e: Event)
  {
    NoDuplicates(e.volunteers) && WithinCapacity(e)
  }

  /** `spotsLeft` on an event card. */
  function SpotsLeft(e: Event): (r: int)
    ensures r + |e.volunteers| == e.maxVolunteers
    ensures r <= 0 <==> IsFull(e)
    ensures Consistent(e) && e.volunteers != [] ==> r >= 0
  {
    e.maxVolunteers - |e.volunteers|
  }

  /** `isFull` on an event card and in the registration guard. */
  predicate IsFull(e: Event)
  {
    |e.volunteers| >= e.maxVolunteers
  }

  /** `isRegistered` on an event card: false when nobody is signed in. */
  predicate IsRegistered(e: Event, user: Option<User>)
  {
    user.Some? && user.value.uid in e.volunteers
  }

  datatype ButtonLabel = RegisteredBadge | EventFullLabel | RegisterToVolunteer

  /** The button an event card shows. */
  datatype Button = Button(caption: ButtonLabel, disabled: bool)

  /**
   * The card's button: a disabled "Registered" badge exactly when the viewer is
   * on the roster; otherwise a register button that reads "Event Full" and is
   * disabled exactly when the event is full.
   */
  function CardButton(e: Event, user: Option<User>): (b: Button)
    ensures b.caption == RegisteredBadge <==> IsRegistered(e, user)
    ensures IsRegistered(e, user) ==> b.disabled
    ensures !IsRegistered(e, user) ==> (b.disabled <==> IsFull(e))
    ensures b.caption == EventFullLabel <==> !IsRegistered(e, user) && IsFull(e)
  {
    if IsRegistered(e, user) then Button(RegisteredBadge, true)
    else if IsFull(e) then Button(EventFullLabel, true)
    else Button(RegisterToVolunteer, false)
  }

  /** What a click on a card's register button leads to, as reported to the user. */
  datatype RegisterOutcome =
    | LoginRequired
    | AlreadyRegistered
    | EventFull
    | Registered
    | RegisterFailed

  /**
   * The guards of a registration, in the order they are checked: no session,
   * then already on the roster, then full. Registered means every guard passed
   * and the roster update is issued.
   */
  function RegisterCheck(e: Event, user: Option<User>): (o: RegisterOutcome)
    ensures o != RegisterFailed
    ensures o == LoginRequired <==> user.None?
    ensures o == AlreadyRegistered <==> IsRegistered(e, user)
    ensures o == EventFull <==> user.Some? && !IsRegistered(e, user) && IsFull(e)
    ensures o == Registered <==> user.Some? && user.value.uid !in e.volunteers && |e.volunteers| < e.maxVolunteers
  {
    if user.None? then LoginRequired
    else if user.value.uid in e.volunteers then AlreadyRegistered
    else if |e.volunteers| >= e.maxVolunteers then EventFull
    else Registered
  }

  /** The event after the roster update of a registration by `uid`. */
  function WithVolunteer(e: Event, uid: string): Event
  {
    e.(volunteers := ArrayUnion(e.volunteers, uid))
  }

  /**
   * A registration that passes the guards appends exactly the viewer's uid,
   * keeps the roster duplicate-free and within capacity, touches no other
   * field, and turns the card's button into the "Registered" badge.
   */
  lemma RegistrationKeepsConsistent(e: Event, u: User)
    requires Consistent(e)
    requires RegisterCheck(e, Some(u)) == Registered
    ensures WithVolunteer(e, u.uid).volunteers == e.volunteers + [u.uid]
    ensures WithVolunteer(e, u.uid) == e.(volunteers := e.volunteers + [u.uid])
    ensures |WithVolunteer(e, u.uid).volunteers| <= e.maxVolunteers
    ensures Consistent(WithVolunteer(e, u.uid))
    ensures CardButton(WithVolunteer(e, u.uid), Some(u)) == Button(RegisteredBadge, true)
  {
  }

  /** A register button that is enabled passes the roster and capacity guards. */
  lemma EnabledButtonPassesGuards(e: Event, user: Option<User>)
    requires !CardButton(e, user).disabled
    ensures RegisterCheck(e, user) == (if user.None? then LoginRequired else Registered)
  {
  }

  /** The "My Events" list: the events whose roster holds the viewer's uid, in list order. */
  function MyEvents(events: seq<Event>, user: Option<User>): (r: seq<Event>)
    ensures |r| <= |events|
    ensures forall e :: e in r ==> e in events && IsRegistered(e, user)
  {
    if events == [] then []
    else (if IsRegistered(events[0], user) then [events[0]] else []) + MyEvents(events[1..], user)
  }

  /** `a` is obtained from `b` by deleting elements, the rest keeping their order. */
  predicate IsSubsequence<T(==)>(a: seq<T>, b: seq<T>)
    decreases |b|
  {
    a == [] || (b != [] && ((a[0] == b[0] && IsSubsequence(a[1..], b[1..])) || IsSubsequence(a, b[1..])))
  }

  /** "My Events" keeps the list order of the events it shows. */
  lemma {:induction false} MyEventsIsSubsequence(events: seq<Event>, user: Option<User>)
    ensures IsSubsequence(MyEvents(events, user), events)
  {
    if events != [] {
      MyEventsIsSubsequence(events[1..], user);
      if IsRegistered(events[0], user) {
        var shown := MyEvents(events, user);
        assert shown[0] == events[0] && shown[1..] == MyEvents(events[1..], user);
      } else {
        assert MyEvents(events, user) == MyEvents(events[1..], user);
      }
    }
  }

  /** "My Events" shows every copy of a registered event and no copy of any other. */
  lemma {:induction false} MyEventsCount(events: seq<Event>, user: Option<User>, e: Event)
    ensures multiset(MyEvents(events, user))[e] == if IsRegistered(e, user) then multiset(events)[e] else 0
  {
    if events != [] {
      MyEventsCount(events[1..], user, e);
      assert events == [events[0]] + events[1..];
      assert multiset(events) == multiset([events[0]]) + multiset(events[1..]);
    }
  }

  /** An event is shown under "My Events" exactly when it is in the list and the viewer is on its roster. */
  lemma MyEventsMembership(events: seq<Event>, user: Option<User>, e: Event)
    ensures e in MyEvents(events, user) <==> e in events && IsRegistered(e, user)
  {
    MyEventsCount(events, user, e);
  }

  /** Filtering a concatenation filters each part. */
  lemma {:induction false} MyEventsAppend(a: seq<Event>, b: seq<Event>, user: Option<User>)
    ensures MyEvents(a + b, user) == MyEvents(a, user) + MyEvents(b, user)
  {
    if a != [] {
      MyEventsAppend(a[1..], b, user);
      assert (a + b)[0] == a[0] && (a + b)[1..] == a[1..] + b;
      var head := if IsRegistered(a[0], user) then [a[0]] else [];
      calc {
        MyEvents(a + b, user);
        head + MyEvents(a[1..] + b, user);
        head + (MyEvents(a[1..], user) + MyEvents(b, user));
        (head + MyEvents(a[1..], user)) + MyEvents(b, user);
        MyEvents(a, user) + MyEvents(b, user);
      }
    } else {
      assert a + b == b;
    }
  }

  /** A listed event whose roster holds the viewer's uid is shown under "My Events". */
  lemma ListedRegisteredEventShown(ids: seq<EventId>, store: map<EventId, Event>, id: EventId, u: User)
    requires forall i :: i in ids ==> i in store
    requires id in ids && u.uid in store[id].volunteers
    ensures store[id] in MyEvents(EventsInOrder(ids, store), Some(u))
  {
    var k :| 0 <= k < |ids| && ids[k] == id;
    var listed := EventsInOrder(ids, store);
    assert listed[k] == store[id];
    MyEventsMembership(listed, Some(u), store[id]);
  }

  /** Signed out, "My Events" is empty whatever the list holds. */
  lemma {:induction false} MyEventsSignedOut(events: seq<Event>)
    ensures MyEvents(events, None) == []
  {
    if events != [] {
      MyEventsSignedOut(events[1..]);
    }
  }

  /** The post-event form, after `parseInt` of its capacity field. */
  datatype EventForm = EventForm(
    title: string,
    organizer: string,
    date: string,
    location: string,
    description: string,
    maxVolunteers: int)

  /** The form's initial values. */
  const DefaultEventForm := EventForm("", "", "", "", "", 10)

  /** The required-field check of the form's submit handler; the capacity field is not checked. */
  predicate FormComplete(f: EventForm)
  {
    f.title != "" && f.organizer != "" && f.date != "" && f.location != "" && f.description != ""
  }

  /** The document a post creates: the form's fields, an empty roster, the poster as creator. */
  function NewEvent(f: EventForm, creator: string): Event
  {
    Event(f.title, f.organizer, f.date, f.location, f.description, f.maxVolunteers, [], creator)
  }

  /**
   * A freshly posted event with capacity N shows N spots left, is full only
   * when N is not positive, is consistent, has nobody registered (not even its
   * creator), and for N >= 1 offers an enabled register button.
   */
  lemma NewEventView(f: EventForm, creator: string, viewer: Option<User>)
    ensures NewEvent(f, creator).volunteers == [] && NewEvent(f, creator).createdBy == creator
    ensures SpotsLeft(NewEvent(f, creator)) == f.maxVolunteers
    ensures IsFull(NewEvent(f, creator)) <==> f.maxVolunteers <= 0
    ensures Consistent(NewEvent(f, creator))
    ensures !IsRegistered(NewEvent(f, creator), viewer)
    ensures f.maxVolunteers >= 1 ==> CardButton(NewEvent(f, creator), viewer) == Button(RegisterToVolunteer, false)
  {
  }

  /** The event list in the order of `ids`, as the snapshot listener lays it out. */
  function EventsInOrder(ids: seq<EventId>, store: map<EventId, Event>): (r: seq<Event>)
    requires forall id :: id in ids ==> id in store
    ensures |r| == |ids|
    ensures forall i :: 0 <= i < |ids| ==> r[i] == store[ids[i]]
  {
    seq(|ids|, i requires 0 <= i < |ids| => store[ids[i]])
  }
}
