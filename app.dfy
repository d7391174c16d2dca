/** The App component's state and its event handlers. Each handler runs as one
    atomic step. The outside world is abstracted: the outcome of each service
    call and the answer to the confirm dialog are parameters, and every request
    made to the outside (service calls, the confirm prompt, scrolling, the
    notification timer, the page reload) is appended to the `effects` log. */
module AppController {
  import opened Users
  import opened Search

  /** The toast shown at the top of the page. */
  datatype Notification = Notification(show: bool, message: string, kind: string)

  /** The notification state when nothing is shown. */
  const Hidden := Notification(false, "", "")

  /** How long a notification stays up before its timer clears it, in milliseconds. */
  const NotificationMillis := 3000

  /** A request the component makes to the world outside its own state. */
  datatype Effect =
    | GetUsers
    | CreateUser(user: User)
    | UpdateUser(user: User, userId: Option<int>)
    | DeleteUser(userId: Option<int>)
    | ConfirmPrompt(text: string)
    | ScrollToForm
    | StartTimer(millis: nat)
    | Reload

  /** What a `getUsers` call came back with: the response body, or an error. */
  datatype Response = Ok(data: seq<User>) | Failed

  const LoadError := "Error loading users"
  const UpdatedMessage := "User updated successfully!"
  const CreatedMessage := "User created successfully!"
  const SubmitError := "Operation failed. Please try again."
  const DeletedMessage := "User deleted successfully!"
  const DeleteError := "Delete failed"

  /** The text of the confirm dialog shown before a delete. */
  function DeletePrompt(name: string): string {
    "Delete " + name + "?"
  }

  class App {
    var users: seq<User>
    var currentUser: User
    var isEditing: bool
    var loading: bool
    var searchTerm: string
    var notification: Notification
    var effects: seq<Effect>

    /** A hidden notification is blank, and a draft that is not an edit has no id. */
    ghost predicate Valid()
      reads this
    {
      && (!notification.show ==> notification == Hidden)
      && (!isEditing ==> currentUser.id == None)
    }

    /** The list as shown under the search box. */
    function FilteredUsers(): (r: seq<User>)
      reads this
      ensures forall u :: u in r <==> u in users && Matches(u, searchTerm)
      ensures forall u :: multiset(r)[u] == if Matches(u, searchTerm) then multiset(users)[u] else 0
      ensures IsSubsequence(r, users)
      ensures searchTerm == "" ==> r == users
    {
      FilterMembership(users, searchTerm);
      FilterCounts(users, searchTerm);
      FilterIsSubsequence(users, searchTerm);
      FilterEmptyTerm(users);
      Filter(users, searchTerm)
    }

    /** The initial state of the component's `useState` slots. */
    constructor ()
      ensures Valid()
      ensures users == [] && currentUser == EmptyUser && !isEditing && loading
      ensures searchTerm == "" && notification == Hidden && effects == []
    {
      users := [];
      currentUser := EmptyUser;
      isEditing := false;
      loading := true;
      searchTerm := "";
      notification := Hidden;
      effects := [];
    }

    /** Shows a toast and starts the timer that will later clear it. */
    method ShowNotification(message: string, kind: string)
      requires Valid()
      modifies this
      ensures Valid()
      ensures notification == Notification(true, message, kind)
      ensures effects == old(effects) + [StartTimer(NotificationMillis)]
      ensures users == old(users) && currentUser == old(currentUser) && isEditing == old(isEditing)
      ensures loading == old(loading) && searchTerm == old(searchTerm)
    {
      notification := Notification(true, message, kind);
      effects := effects + [StartTimer(NotificationMillis)];
    }

    /** The timer started by ShowNotification firing: the toast is cleared. */
    method ClearNotification()
      requires Valid()
      modifies this
      ensures Valid()
      ensures notification == Hidden
      ensures users == old(users) && currentUser == old(currentUser) && isEditing == old(isEditing)
      ensures loading == old(loading) && searchTerm == old(searchTerm) && effects == old(effects)
    {
      notification := Hidden;
    }

    /** The mount effect: fetch the list and store it, or report the failure. */
    method LoadUsers(response: Response)
      requires Valid()
      modifies this
      ensures Valid()
      ensures !loading
      ensures users == (if response.Ok? then response.data else old(users))
      ensures notification == (if response.Ok? then old(notification) else Notification(true, LoadError, "error"))
      ensures effects == old(effects) + [GetUsers] + (if response.Ok? then [] else [StartTimer(NotificationMillis)])
      ensures currentUser == old(currentUser) && isEditing == old(isEditing) && searchTerm == old(searchTerm)
    {
      loading := true;
      effects := effects + [GetUsers];
      match response
      case Ok(data) =>
        users := data;
        loading := false;
      case Failed =>
        ShowNotification(LoadError, "error");
        loading := false;
    }

    /** Typing into one of the form's inputs. */
    method HandleInputChange(field: Field, value: string)
      requires Valid()
      modifies this
      ensures Valid()
      ensures currentUser == WithField(old(currentUser), field, value)
      ensures FieldOf(currentUser, field) == value
      ensures forall g :: g != field ==> FieldOf(currentUser, g) == FieldOf(old(currentUser), g)
      ensures currentUser.id == old(currentUser.id)
      ensures users == old(users) && isEditing == old(isEditing) && loading == old(loading)
      ensures searchTerm == old(searchTerm) && notification == old(notification) && effects == old(effects)
    {
      currentUser := WithField(currentUser, field, value);
    }

    /** Typing into the search box. */
    method HandleSearchChange(value: string)
      requires Valid()
      modifies this
      ensures Valid()
      ensures searchTerm == value
      ensures users == old(users) && currentUser == old(currentUser) && isEditing == old(isEditing)
      ensures loading == old(loading) && notification == old(notification) && effects == old(effects)
    {
      searchTerm := value;
    }

    /** Leaves edit mode and empties the form, whatever state it was in. */
    method ResetForm()
      requires Valid()
      modifies this
      ensures Valid()
      ensures !isEditing && currentUser == EmptyUser
      ensures users == old(users) && loading == old(loading) && searchTerm == old(searchTerm)
      ensures notification == old(notification) && effects == old(effects)
    {
      isEditing := false;
      currentUser := EmptyUser;
    }

    /** The Edit button of a row: load that user into the form and scroll to it. */
    method HandleEdit(user: User)
      requires Valid()
      modifies this
      ensures Valid()
      ensures isEditing && currentUser == user
      ensures effects == old(effects) + [ScrollToForm]
      ensures users == old(users) && loading == old(loading) && searchTerm == old(searchTerm)
      ensures notification == old(notification)
    {
      isEditing := true;
      currentUser := user;
      effects := effects + [ScrollToForm];
    }

    /** Submitting the form: update the user being edited, or create a new one.
        `ok` is whether the service call succeeded. */
    method HandleSubmit(ok: bool)
      requires Valid()
      modifies this
      ensures Valid()
      ensures var call := if old(isEditing) then UpdateUser(old(currentUser), old(currentUser.id))
                          else CreateUser(old(currentUser));
        effects == old(effects) + [call, StartTimer(NotificationMillis)] + (if ok then [Reload] else [])
      ensures !old(isEditing) ==> old(currentUser.id) == None
      ensures ok ==> notification == Notification(true, if old(isEditing) then UpdatedMessage else CreatedMessage, "success")
      ensures ok ==> !isEditing && currentUser == EmptyUser
      ensures !ok ==> notification == Notification(true, SubmitError, "error")
      ensures !ok ==> isEditing == old(isEditing) && currentUser == old(currentUser)
      ensures users == old(users) && loading == old(loading) && searchTerm == old(searchTerm)
    {
      var call := if isEditing then UpdateUser(currentUser, currentUser.id) else CreateUser(currentUser);
      effects := effects + [call];
      if ok {
        ShowNotification(if isEditing then UpdatedMessage else CreatedMessage, "success");
        ResetForm();
        effects := effects + [Reload];
      } else {
        ShowNotification(SubmitError, "error");
      }
    }

    /** The Delete button of a row: ask, and if confirmed delete the user.
        `confirmed` is the dialog's answer, `ok` whether the service call succeeded. */
    method HandleDelete(userId: Option<int>, name: string, confirmed: bool, ok: bool)
      requires Valid()
      modifies this
      ensures Valid()
      ensures !confirmed ==> effects == old(effects) + [ConfirmPrompt(DeletePrompt(name))]
      ensures !confirmed ==> notification == old(notification)
      ensures confirmed ==> effects == old(effects) + [ConfirmPrompt(DeletePrompt(name)), DeleteUser(userId),
                                                       StartTimer(NotificationMillis)] + (if ok then [Reload] else [])
      ensures confirmed && ok ==> notification == Notification(true, DeletedMessage, "success")
      ensures confirmed && !ok ==> notification == Notification(true, DeleteError, "error")
      ensures users == old(users) && currentUser == old(currentUser) && isEditing == old(isEditing)
      ensures loading == old(loading) && searchTerm == old(searchTerm)
    {
      effects := effects + [ConfirmPrompt(DeletePrompt(name))];
      if confirmed {
        effects := effects + [DeleteUser(userId)];
        if ok {
          ShowNotification(DeletedMessage, "success");
          effects := effects + [Reload];
        } else {
          ShowNotification(DeleteError, "error");
        }
      }
    }
  }
}
