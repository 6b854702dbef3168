/**
 * The volunteer hub's top-level component state and its handlers: the page
 * shown, the event store, the session, and the login dialog. Every remote call
 * (account creation, sign-in, sign-out, document creation and update) is an
 * input of the handler that issues it: whether it succeeded, and for a created
 * document the id the store assigned.
 *
 * The model applies operations one at a time against `events`, which stands
 * for the store as this client sees it. The capacity invariant below holds
 * only under that sequential application: two clients that both pass the
 * capacity guard before either's append lands can over-fill a roster.
 */
module VolunteerHub {
  import opened Wrappers
  import opened Session
  import opened Roster

  /** `currentPage`. */
  datatype Page = HomePage | EventsPage | PostPage | MyEventsPage

  /** The navigation bar's page buttons; "My Events" only while signed in. */
  function NavLinks(user: Option<User>): (r: seq<Page>)
    ensures MyEventsPage in r <==> user.Some?
    ensures |r| == if user.Some? then 4 else 3
    ensures r[..3] == [HomePage, EventsPage, PostPage]
  {
    [HomePage, EventsPage, PostPage] + (if user.Some? then [MyEventsPage] else [])
  }

  /** What submitting the post-event form leads to, as reported to the user. */
  datatype PostOutcome =
    | PostLoginRequired
    | MissingFields
    | Posted(id: EventId)
    | PostFailed

  class Hub {
    var currentPage: Page
    /** The "volunteer-events" collection, by document id. */
    var events: map<EventId, Event>
    /** The order in which the event list shows the documents. */
    var ids: seq<EventId>
    var currentUser: Option<User>
    var showAuthModal: bool
    var authMode: AuthMode
    var authForm: AuthForm

    /** The listed documents are exactly the stored ones, each once, each consistent. */
    ghost predicate Valid()
      reads this`ids, this`events
    {
      && NoDuplicates(ids)
      && (forall id :: id in ids <==> id in events)
      && (forall id :: id in events ==> Consistent(events[id]))
    }

    /** The event list the events page renders. */
    function Listing(): (r: seq<Event>)
      reads this`ids, this`events
      requires Valid()
      ensures |r| == |ids|
      ensures forall i :: 0 <= i < |ids| ==> r[i] == events[ids[i]]
    {
      EventsInOrder(ids, events)
    }

    /** The events the "My Events" page renders. */
    function MyRegisteredEvents(): (r: seq<Event>)
      reads this`ids, this`events, this`currentUser
      requires Valid()
      ensures forall e :: e in r <==> e in Listing() && IsRegistered(e, currentUser)
      ensures currentUser.None? ==> r == []
    {
      var all := Listing();
      forall e ensures e in MyEvents(all, currentUser) <==> e in all && IsRegistered(e, currentUser) {
        MyEventsMembership(all, currentUser, e);
      }
      MyEventsSignedOut(all);
      MyEvents(all, currentUser)
    }

    /** The initial state: home page, no events yet, signed out, dialog closed in login mode. */
    constructor ()
      ensures Valid()
      ensures currentPage == HomePage && events == map[] && ids == []
      ensures currentUser == None && !showAuthModal && authMode == Login && authForm == EmptyAuthForm
    {
      currentPage := HomePage;
      events := map[];
      ids := [];
      currentUser := None;
      showAuthModal := false;
      authMode := Login;
      authForm := EmptyAuthForm;
    }

    /** The auth-state listener: a reported identity becomes the session, its name the email's local part. */
    method OnAuthStateChanged(user: Option<AuthUser>)
      modifies this`currentUser
      ensures user.None? ==> currentUser == None
      ensures user.Some? ==> currentUser == Some(User(user.value.uid, user.value.email, LocalPart(user.value.email)))
    {
      if user.Some? {
        currentUser := Some(SessionOf(user.value));
      } else {
        currentUser := None;
      }
    }

    /** A page button of the navigation bar or the home page. */
    method Navigate(page: Page)
      modifies this`currentPage
      ensures currentPage == page
    {
      currentPage := page;
    }

    /** The Login button of the navigation bar. */
    method OpenLogin()
      modifies this`showAuthModal, this`authMode
      ensures showAuthModal && authMode == Login
    {
      showAuthModal := true;
      authMode := Login;
    }

    /** The dialog's "Sign up" / "Login" switch. */
    method ToggleAuthMode()
      modifies this`authMode
      ensures authMode == Toggled(old(authMode))
      ensures authMode != old(authMode)
    {
      authMode := Toggled(authMode);
    }

    /** The dialog's Cancel button. */
    method CancelAuth()
      modifies this`showAuthModal
      ensures !showAuthModal
    {
      showAuthModal := false;
    }

    /** One of the dialog's inputs changed. */
    method EditAuthForm(field: AuthField, value: string)
      modifies this`authForm
      ensures authForm == EditedForm(old(authForm), field, value)
    {
      authForm := EditedForm(authForm, field, value);
    }

    /**
     * `handleAuth`: issues the account-creation or sign-in call the mode calls
     * for; only when it succeeds is the dialog closed and the form reset. The
     * session itself changes through the auth-state listener.
     */
    method HandleAuth(succeeded: bool) returns (request: AuthRequest)
      modifies this`showAuthModal, this`authForm
      ensures request == AuthRequestFor(authMode, old(authForm))
      ensures succeeded ==> !showAuthModal && authForm == EmptyAuthForm
      ensures !succeeded ==> showAuthModal == old(showAuthModal) && authForm == old(authForm)
    {
      request := AuthRequestFor(authMode, authForm);
      if succeeded {
        showAuthModal := false;
        authForm := EmptyAuthForm;
      }
    }

    /**
     * `handleLogout`: after a successful sign-out the home page is shown; a
     * failed one changes nothing. The session is cleared by the auth-state
     * listener when the service reports the sign-out.
     */
    method HandleLogout(succeeded: bool)
      modifies this`currentPage
      ensures currentPage == if succeeded then HomePage else old(currentPage)
    {
      if succeeded {
        currentPage := HomePage;
      }
    }

    /**
     * `handleRegister` for the event `id` shown on the events page. Without a
     * session the dialog opens in login mode; a viewer already on the roster is
     * told so before the capacity is looked at; a full event is refused; else
     * the store appends the uid (set-union) when the update succeeds. Only the
     * one event changes, and only in its roster.
     */
    method Register(id: EventId, updateSucceeded: bool) returns (outcome: RegisterOutcome)
      requires Valid()
      requires id in events
      modifies this`events, this`showAuthModal, this`authMode
      ensures Valid()
      ensures outcome == (var check := RegisterCheck(old(events[id]), currentUser);
                          if check == Registered && !updateSucceeded then RegisterFailed else check)
      ensures outcome == LoginRequired ==> showAuthModal && authMode == Login
      ensures outcome != LoginRequired ==> showAuthModal == old(showAuthModal) && authMode == old(authMode)
      ensures outcome != Registered ==> events == old(events)
      ensures outcome == Registered ==>
                && currentUser.Some?
                && events == old(events)[id := old(events[id]).(volunteers := old(events[id].volunteers) + [currentUser.value.uid])]
                && |events[id].volunteers| <= events[id].maxVolunteers
                && CardButton(events[id], currentUser) == Button(RegisteredBadge, true)
    {
      var event := events[id];
      var check := RegisterCheck(event, currentUser);
      if check == LoginRequired {
        showAuthModal := true;
        authMode := Login;
        outcome := LoginRequired;
      } else if check != Registered {
        outcome := check;
      } else if !updateSucceeded {
        outcome := RegisterFailed;
      } else {
        var user := currentUser.value;
        RegistrationKeepsConsistent(event, user);
        events := events[id := WithVolunteer(event, user.uid)];
        outcome := Registered;
      }
    }

    /**
     * `handlePostEvent`: without a session the dialog opens (its mode is left
     * as it was) and nothing is created. Otherwise the form is sent with an
     * empty roster and the viewer as creator; when the store creates the
     * document under `created`, it joins the list and the events page is shown.
     */
    method PostEvent(form: EventForm, created: Option<EventId>) returns (outcome: PostOutcome)
      requires Valid()
      requires created.Some? ==> created.value !in events
      modifies this`events, this`ids, this`showAuthModal, this`currentPage
      ensures Valid()
      ensures currentUser.None? ==>
                outcome == PostLoginRequired && showAuthModal
                && events == old(events) && ids == old(ids) && currentPage == old(currentPage)
      ensures currentUser.Some? ==> showAuthModal == old(showAuthModal)
      ensures currentUser.Some? && created.None? ==>
                outcome == PostFailed
                && events == old(events) && ids == old(ids) && currentPage == old(currentPage)
      ensures currentUser.Some? && created.Some? ==>
                && outcome == Posted(created.value)
                && events == old(events)[created.value := NewEvent(form, currentUser.value.uid)]
                && ids == old(ids) + [created.value]
                && currentPage == EventsPage
    {
      if currentUser.None? {
        showAuthModal := true;
        outcome := PostLoginRequired;
      } else if created.None? {
        outcome := PostFailed;
      } else {
        var id := created.value;
        NewEventView(form, currentUser.value.uid, currentUser);
        events := events[id := NewEvent(form, currentUser.value.uid)];
        ids := ids + [id];
        currentPage := EventsPage;
        outcome := Posted(id);
      }
    }

    /**
     * The post-event form's submit handler: a form with an empty required
     * field is refused before the session is looked at; a complete one is
     * posted as PostEvent does.
     */
    method SubmitPostForm(form: EventForm, created: Option<EventId>) returns (outcome: PostOutcome)
      requires Valid()
      requires created.Some? ==> created.value !in events
      modifies this`events, this`ids, this`showAuthModal, this`currentPage
      ensures Valid()
      ensures outcome == MissingFields <==> !FormComplete(form)
      ensures !FormComplete(form) ==>
                showAuthModal == old(showAuthModal)
                && events == old(events) && ids == old(ids) && currentPage == old(currentPage)
      ensures FormComplete(form) && currentUser.None? ==>
                outcome == PostLoginRequired && showAuthModal
                && events == old(events) && ids == old(ids) && currentPage == old(currentPage)
      ensures FormComplete(form) && currentUser.Some? ==> showAuthModal == old(showAuthModal)
      ensures FormComplete(form) && currentUser.Some? && created.None? ==>
                outcome == PostFailed
                && events == old(events) && ids == old(ids) && currentPage == old(currentPage)
      ensures FormComplete(form) && currentUser.Some? && created.Some? ==>
                && outcome == Posted(created.value)
                && events == old(events)[created.value := NewEvent(form, currentUser.value.uid)]
                && ids == old(ids) + [created.value]
                && currentPage == EventsPage
    {
      if !FormComplete(form) {
        outcome := MissingFields;
      } else {
        outcome := PostEvent(form, created);
      }
    }
  }
}
