/** Sequences of App events, proved from the handlers' contracts alone. */
module Scenarios {
  import opened Text
  import opened Users
  import opened Search
  import opened AppController

  /** Edit followed by Cancel leaves the form empty and out of edit mode; the list is untouched. */
  method EditThenReset(app: App, user: User)
    requires app.Valid()
    modifies app
    ensures app.Valid()
    ensures !app.isEditing && app.currentUser == EmptyUser
    ensures app.users == old(app.users) && app.notification == old(app.notification)
    ensures app.effects == old(app.effects) + [ScrollToForm]
  {
    app.HandleEdit(user);
    app.ResetForm();
  }

  /** Resetting the form twice ends in the same state as resetting it once. */
  method ResetTwice(app: App)
    requires app.Valid()
    modifies app
    ensures app.Valid()
    ensures !app.isEditing && app.currentUser == EmptyUser
    ensures app.users == old(app.users) && app.loading == old(app.loading) && app.searchTerm == old(app.searchTerm)
    ensures app.notification == old(app.notification) && app.effects == old(app.effects)
  {
    app.ResetForm();
    app.ResetForm();
  }

  /** A session: the list loads one user, the user is found by a search in another
      letter case, edited and saved. The component asks for a reload instead of
      patching its list, so the list still holds the old record afterwards. */
  method EditSession()
  {
    var ann := User(Some(1), "Ann", "Lee", "ann@x.com");
    var app := new App();
    app.LoadUsers(Ok([ann]));
    assert app.users == [ann] && !app.loading;

    app.HandleSearchChange("ANN");
    assert Lower("ANN") == "ann" && Lower("Ann") == "ann";
    assert Includes("ann", "ann");
    assert Matches(ann, "ANN");
    FilterAllMatch([ann], "ANN");
    assert app.FilteredUsers() == [ann];

    app.HandleEdit(ann);
    app.HandleInputChange(Email, "ann.lee@x.com");
    assert app.isEditing && app.currentUser == User(Some(1), "Ann", "Lee", "ann.lee@x.com");

    var before := app.effects;
    app.HandleSubmit(true);
    assert app.effects == before + [UpdateUser(User(Some(1), "Ann", "Lee", "ann.lee@x.com"), Some(1)),
                                    StartTimer(3000), Reload];
    assert app.notification == Notification(true, "User updated successfully!", "success");
    assert !app.isEditing && app.currentUser == EmptyUser;
    assert app.users == [ann];
  }

  /** A failed create keeps the draft so that it can be submitted again, and asks for no reload. */
  method FailedCreateKeepsDraft(app: App, draft: Field, value: string)
    requires app.Valid() && !app.isEditing
    modifies app
    ensures app.Valid()
    ensures !app.isEditing && FieldOf(app.currentUser, draft) == value && app.currentUser.id == None
    ensures app.notification == Notification(true, SubmitError, "error")
    ensures app.effects == old(app.effects) + [CreateUser(app.currentUser), StartTimer(NotificationMillis)]
  {
    app.HandleInputChange(draft, value);
    app.HandleSubmit(false);
  }
}
