/**
 * Two end-to-end sessions with the volunteer hub, replayed against the Hub
 * class's contracts: an organizer posting an event, and an anonymous viewer
 * who is sent to the dialog, signs up, and takes the last spot of an event.
 */
module Scenarios {
  import opened Wrappers
  import opened Session
  import opened Roster
  import opened VolunteerHub

  /**
   * Signed in as "u1", a form without an organizer is refused; with one, the
   * store receives an event with capacity 5, an empty roster and creator "u1",
   * it shows 5 spots, and the events page is shown.
   */
  method PostBeachCleanup() returns (refused: PostOutcome, outcome: PostOutcome, posted: Event, page: Page)
    ensures refused == MissingFields
    ensures outcome == Posted("e1")
    ensures posted.volunteers == [] && posted.maxVolunteers == 5 && posted.createdBy == "u1"
    ensures SpotsLeft(posted) == 5 && !IsFull(posted)
    ensures page == EventsPage
  {
    var hub := new Hub();
    hub.OnAuthStateChanged(Some(AuthUser("u1", "org@example.org")));
    var form := DefaultEventForm.(title := "Beach Cleanup", date := "2025-03-01", location := "Pier 7",
                                  description := "Pick up litter", maxVolunteers := 5);
    refused := hub.SubmitPostForm(form, Some("e1"));
    form := form.(organizer := "Shore Crew");
    outcome := hub.SubmitPostForm(form, Some("e1"));
    posted := hub.events["e1"];
    page := hub.currentPage;
  }

  /** An event with capacity 3, posted by "org", after "v1" and "v2" have registered. */
  method FoodDriveWithTwoVolunteers() returns (hub: Hub)
    ensures fresh(hub) && hub.Valid()
    ensures "e1" in hub.events && hub.events["e1"].maxVolunteers == 3
    ensures hub.events["e1"].volunteers == ["v1", "v2"]
  {
    hub := new Hub();
    hub.OnAuthStateChanged(Some(AuthUser("org", "org@example.org")));
    var posted := hub.SubmitPostForm(EventForm("Food Drive", "Pantry", "2025-04-12", "Hall", "Sort cans", 3), Some("e1"));
    assert hub.events["e1"].volunteers == [] && hub.events["e1"].maxVolunteers == 3;
    hub.OnAuthStateChanged(Some(AuthUser("v1", "v1@example.org")));
    var r1 := hub.Register("e1", true);
    assert hub.events["e1"].volunteers == ["v1"];
    hub.OnAuthStateChanged(Some(AuthUser("v2", "v2@example.org")));
    assert "v2" !in ["v1"];
    var r2 := hub.Register("e1", true);
  }

  /**
   * Signed out, a click on Register for `id` opens the dialog in login mode
   * and changes no roster; switching to sign-up and submitting creates the
   * account and closes the dialog; once the listener reports "a@b.com" the
   * session is "ann" with name "a".
   */
  method AnnSignsUp(hub: Hub, id: EventId) returns (anonymous: RegisterOutcome, modalMode: AuthMode, request: AuthRequest)
    requires hub.Valid() && id in hub.events
    modifies hub
    ensures hub.Valid() && hub.events == old(hub.events)
    ensures anonymous == LoginRequired && modalMode == Login
    ensures request == CreateUserWithEmailAndPassword("a@b.com", "pw123456")
    ensures !hub.showAuthModal
    ensures hub.currentUser == Some(User("ann", "a@b.com", "a"))
  {
    hub.OnAuthStateChanged(None);
    anonymous := hub.Register(id, true);
    modalMode := hub.authMode;
    hub.ToggleAuthMode();
    hub.EditAuthForm(NameField, "Ann");
    hub.EditAuthForm(EmailField, "a@b.com");
    hub.EditAuthForm(PasswordField, "pw123456");
    request := hub.HandleAuth(true);
    SessionNameOfAddress("ann", "a", "b.com");
    assert "a" + "@" + "b.com" == "a@b.com";
    hub.OnAuthStateChanged(Some(AuthUser("ann", "a@b.com")));
  }

  /**
   * On the event above, after the sign-up, the next click takes the third
   * spot and the card shows the "Registered" badge; a fourth viewer is then
   * told the event is full.
   */
  method LastSpot()
    returns (anonymous: RegisterOutcome, modalMode: AuthMode, request: AuthRequest,
             name: string, registered: RegisterOutcome, roster: seq<string>,
             button: Button, late: RegisterOutcome)
    ensures anonymous == LoginRequired && modalMode == Login
    ensures request == CreateUserWithEmailAndPassword("a@b.com", "pw123456")
    ensures name == "a"
    ensures registered == Registered
    ensures roster == ["v1", "v2", "ann"]
    ensures button == Button(RegisteredBadge, true)
    ensures late == EventFull
  {
    var hub := FoodDriveWithTwoVolunteers();
    anonymous, modalMode, request := AnnSignsUp(hub, "e1");
    name := hub.currentUser.value.name;
    assert "ann" !in ["v1", "v2"];
    registered := hub.Register("e1", true);
    roster := hub.events["e1"].volunteers;
    button := CardButton(hub.events["e1"], hub.currentUser);

    hub.OnAuthStateChanged(Some(AuthUser("v4", "v4@example.org")));
    assert "v4" !in ["v1", "v2", "ann"];
    late := hub.Register("e1", true);
  }
}
