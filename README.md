# Volunteer Hub: a Dafny model of the event board's state and rules

Volunteer Hub is a single-page event board. Viewers browse volunteer events
and register for them. Organizers post new events. Sign-in and storage are
handled by a hosted backend. All of the repository's own logic sits in the
top-level component `src/App.jsx`. That logic is:

- the page shown;
- the login / sign-up dialog and its form;
- the guarded handlers that register a viewer for an event and post an event;
- the values derived from the event list: spots left, full or not, which
  button a card shows, and the "My Events" list.

The model has five modules, one file each:

- `wrappers.dfy` (`Wrappers`): the `Option` type used for the session.
- `session.dfy` (`Session`): the identity reported by the authentication
  service. It holds the display name taken from the email's local part
  (`email.split('@')[0]`), the two dialog modes and the switch between them,
  the dialog's form, and the service call a submission of the form issues.
- `roster.dfy` (`Roster`): the event document and the store's set-union
  append (`arrayUnion`). It holds the registration guards in the source's
  order, the capacity and duplicate-freedom invariant, the card views
  (`spotsLeft`, `isFull`, the button), the "My Events" filter with its
  characterisation, and the post-event form's required-field check.
- `hub.dfy` (`VolunteerHub`): class `Hub`. Its fields are the component's
  state: `currentPage`, `events` (the event collection by document id),
  `ids` (the order the list shows them in), `currentUser`, `showAuthModal`,
  `authMode` and `authForm`. Each handler is a method. Each remote call's
  result is a method parameter: a success flag, or for a created document
  the id the store assigned. `Valid()` is the invariant every handler keeps:
  each listed id appears once, the list matches the stored documents, and
  every roster is duplicate-free and within capacity.
- `scenarios.dfy` (`Scenarios`): two end-to-end sessions replayed against the
  class's contracts. In the first, an organizer posts an event. In the
  second, an anonymous viewer is sent to the dialog, signs up and takes an
  event's last spot.

The model runs operations one at a time. Under that sequential application,
registration never over-fills a roster. The source gives no such guarantee
for two clients whose capacity checks both pass before either append lands.

Behaviour of this revision worth noting:

- The display name is always the email's local part (`src/App.jsx:40`),
  including right after a sign-up. The name typed into the sign-up form is
  never sent (`AuthRequestIgnoresName`).
- A failed sign-out changes nothing (`src/App.jsx:83-90`). The session is
  cleared only when the auth-state listener reports the sign-out. It is not
  cleared unconditionally.
- The organizer field is required (`src/App.jsx:230`). A post without it is
  refused with "Please fill in all fields" (`Scenarios.PostBeachCleanup`).
- When a signed-out viewer posts, the dialog opens but its mode is left
  unchanged (`src/App.jsx:128-131`). A signed-out registration sets the mode
  to login (`src/App.jsx:95-98`).
- This revision has no date filter, password reset or about page. The
  registration does enforce the capacity check client-side.

## Model

| member | source | states |
|---|---|---|
| `Session.LocalPart` | src/App.jsx:40 | the name is a prefix of the email, contains no '@', and is followed by '@' unless it is the whole email |
| `Session.LocalPartUnique` | src/App.jsx:40 | those three properties determine the name: any string that has them is LocalPart's result |
| `Session.LocalPartOfAddress` | src/App.jsx:40 | the name of "local@domain" is "local" when "local" has no '@' |
| `Session.SessionOf` | src/App.jsx:37-41 | the session keeps the reported uid and email and takes the email's local part as its name |
| `Session.SessionNameOfAddress` | src/App.jsx:37-41 | the session built for a reported "local@domain" identity keeps the uid and has name "local" |
| `Session.Toggled` | src/App.jsx:358 | the switch always changes the dialog mode |
| `Session.ToggledInvolution` | src/App.jsx:358 | switching twice returns to the starting mode |
| `Session.EditedForm` | src/App.jsx:343-352 | an input's change handler sets its own field and leaves the other two as they were |
| `Session.AuthRequestFor` | src/App.jsx:70-74 | sign-up mode creates an account and login mode signs in; both send the form's email and password |
| `Session.AuthRequestIgnoresName` | src/App.jsx:70-74 | the request does not depend on the name typed into the form |
| `Roster.ArrayUnion` | src/App.jsx:117-119 | the result holds exactly the old entries and the uid, keeps the old entries in order as a prefix, grows by one iff the uid was absent, and keeps a duplicate-free roster duplicate-free |
| `Roster.ArrayUnionIdempotent` | src/App.jsx:118 | appending the same uid twice gives the roster that one append gives |
| `Roster.IsFull` | src/App.jsx:102 | an event is full when its roster length has reached its capacity; the guard and the card share this definition |
| `Roster.IsRegistered` | src/App.jsx:184 | the viewer is registered when signed in and the uid is on the roster; never when signed out |
| `Roster.WithVolunteer` | src/App.jsx:117-119 | the roster update of a registration replaces only the roster, by its set-union with the uid |
| `Roster.FormComplete` | src/App.jsx:230 | a post-event form passes when title, organizer, date, location and description are all non-empty; the capacity is not checked |
| `Roster.NewEvent` | src/App.jsx:134-139 | the created document carries the form's fields and capacity, an empty roster, and the poster's uid as creator |
| `Roster.SpotsLeft` | src/App.jsx:185-187 | spots left plus roster length is the capacity; spots left is at most zero iff the event is full; it is never negative for a consistent non-empty roster |
| `Roster.CardButton` | src/App.jsx:200-211 | the "Registered" badge is shown iff the viewer is on the roster and is always disabled; otherwise the button is disabled iff the event is full and reads "Event Full" exactly then |
| `Roster.RegisterCheck` | src/App.jsx:95-111 | no session means login; otherwise already registered iff the uid is on the roster, checked before capacity; otherwise full iff length >= capacity; registration proceeds iff signed in, absent and length < capacity |
| `Roster.RegistrationKeepsConsistent` | src/App.jsx:113-119 | a registration that passes the guards appends exactly the uid and changes no other field; the roster stays duplicate-free, within capacity and turns the button into the badge |
| `Roster.EnabledButtonPassesGuards` | src/App.jsx:206-211 | a click on an enabled register button either asks for login or passes every guard |
| `Roster.MyEvents` | src/App.jsx:275 | "My Events" is no longer than the list and holds only listed events whose roster has the viewer's uid |
| `Roster.MyEventsIsSubsequence` | src/App.jsx:275 | "My Events" is a subsequence of the list: order is kept |
| `Roster.MyEventsCount` | src/App.jsx:275 | each registered event occurs as often as in the list, every other event never |
| `Roster.MyEventsMembership` | src/App.jsx:275 | an event is shown iff it is listed and the viewer is on its roster |
| `Roster.MyEventsAppend` | src/App.jsx:275 | filtering a concatenation concatenates the filtered parts |
| `Roster.ListedRegisteredEventShown` | src/App.jsx:275 | a listed event whose roster has the viewer's uid is shown under "My Events" |
| `Roster.MyEventsSignedOut` | src/App.jsx:275 | signed out, "My Events" is empty |
| `Roster.NewEventView` | src/App.jsx:134-139 | a posted event has an empty roster and the poster as creator; it shows N spots for capacity N, is full only if N <= 0, is consistent, has nobody registered, and for N >= 1 offers an enabled register button |
| `Roster.EventsInOrder` | src/App.jsx:55-60 | the event list has one entry per id, the stored document of that id, in id order |
| `VolunteerHub.NavLinks` | src/App.jsx:306-311 | the navigation bar offers Home, Find Events and Post Event first, then My Events iff signed in, and nothing else: three links signed out, four signed in |
| `VolunteerHub.Hub.Listing` | src/App.jsx:183 | the events page lists the stored document of each id, in list order |
| `VolunteerHub.Hub.MyRegisteredEvents` | src/App.jsx:275 | the "My Events" page shows exactly the listed events the viewer is registered for, and nothing when signed out |
| `VolunteerHub.Hub.constructor` | src/App.jsx:17-23 | the initial state is: home page, no events, signed out, dialog closed in login mode with an empty form |
| `VolunteerHub.Hub.OnAuthStateChanged` | src/App.jsx:34-46 | a reported identity becomes the session with the email's local part as name; none clears the session |
| `VolunteerHub.Hub.Navigate` | src/App.jsx:306-310 | a page button shows its page and changes nothing else |
| `VolunteerHub.Hub.OpenLogin` | src/App.jsx:320 | the Login button opens the dialog in login mode |
| `VolunteerHub.Hub.ToggleAuthMode` | src/App.jsx:358 | the switch changes the mode to the other one and nothing else |
| `VolunteerHub.Hub.CancelAuth` | src/App.jsx:361 | Cancel closes the dialog and keeps mode and form |
| `VolunteerHub.Hub.EditAuthForm` | src/App.jsx:343-352 | an input edit changes only that form field |
| `VolunteerHub.Hub.HandleAuth` | src/App.jsx:68-81 | the call issued follows the mode; on success the dialog closes and the form resets; on failure both stay as they were; the session and events are untouched |
| `VolunteerHub.Hub.HandleLogout` | src/App.jsx:83-90 | a successful sign-out shows the home page; a failed one changes nothing |
| `VolunteerHub.Hub.Register` | src/App.jsx:94-125 | the outcome follows the guards in order, with remote failure reported separately. Signed out: the dialog opens in login mode and no roster changes. Already registered, full or failed: nothing changes. Success: exactly the viewer's uid is appended to that one event and every other event is unchanged; the invariant (duplicate-free, within capacity) is kept and the card shows the badge |
| `VolunteerHub.Hub.PostEvent` | src/App.jsx:127-146 | signed out: the dialog opens and nothing is created. Remote failure: nothing changes. Success: the new document (the form's fields, empty roster, viewer as creator) is stored under the assigned id and appended to the list, and the events page is shown; the invariant is kept |
| `VolunteerHub.Hub.SubmitPostForm` | src/App.jsx:228-235 | a form with an empty title, organizer, date, location or description is refused, and nothing changes whatever the session; a complete form is posted as PostEvent states |
| `Scenarios.PostBeachCleanup` | src/App.jsx:228-235 | a post without an organizer is refused; with one, the event is stored with capacity 5, an empty roster and creator "u1", shows 5 spots, and the events page is shown |
| `Scenarios.FoodDriveWithTwoVolunteers` | src/App.jsx:94-146 | posting a capacity-3 event and two registrations leave the roster ["v1", "v2"] |
| `Scenarios.AnnSignsUp` | src/App.jsx:68-98 | signed out, Register opens the login dialog; after the switch to sign-up and a successful submission, the dialog is closed and the session is "ann" named "a" |
| `Scenarios.LastSpot` | src/App.jsx:94-125 | the signed-up viewer takes the third spot of the capacity-3 event and sees the badge; a fourth viewer is told the event is full |

## Left out

- The hosted backend's SDK calls are not modelled: account creation, sign-in, sign-out, document creation, document update and the two listeners' subscriptions. Each appears only as its outcome, a method parameter. The store-assigned id of a new document is assumed fresh, which is the store's contract.
- The live snapshot listener (`src/App.jsx:52-64`) is not modelled. The model's `events` and `ids` stand for the store as this one client sees it, and a new document is placed at the end of the list. Writes by other clients, and the capacity race between concurrent registrations, are not modelled. Capacity is guaranteed only under sequential application.
- `VolunteerHub.Hub.Register` takes the event's id and reads the event from `events`. The source checks the event object the card was rendered from. Under sequential application that object is the stored document, and the handler is only reachable from a rendered card, so the id is required to be stored.
- `parseInt` of the capacity field (`src/App.jsx:136`) is not modelled: whitespace, trailing characters and NaN. The form carries an already-parsed integer. The browser's `min="1"` hint is not modelled either, so a capacity of zero or below may be posted. Such an event keeps an empty roster.
- The `loading` splash, the JSX rendering, icons, styling, date formatting (`toLocaleDateString`), and the text of `alert` and `console` messages are not modelled. Each alert of registration and posting is represented by an outcome constructor. The "Authentication failed" alert (`src/App.jsx:79`) and the logout error log (`src/App.jsx:88`) have no outcome of their own; they correspond to the `succeeded == false` input of `VolunteerHub.Hub.HandleAuth` and `VolunteerHub.Hub.HandleLogout`.
- The `id` that each list entry carries (`src/App.jsx:58`) is not a field of `Event`. The id is the key of `events` and the element of `ids`, so `VolunteerHub.Hub.Listing` and `Roster.MyEvents` return documents without their ids. Two documents with the same fields cannot be told apart in those lists. Nothing the pages render depends on this.
- `src/firebase.js` (environment configuration and SDK start-up) and `src/main.jsx` (React bootstrap) are not part of this model.
- The post-event form's per-field change handlers (`src/App.jsx:243-263`) are not modelled. They are input bindings local to that page, and the submitted form is the method's input.
