/** The `UserInterface` component: the local mirror of the backend's user
    list plus the two form drafts, and the handlers that change them. Each
    HTTP request is replaced by its outcome, passed in as a parameter; a
    handler runs to completion on the current state before the next one. */
module Component {
  import opened Wrappers
  import opened Users
  import opened JsParseInt

  class UserInterface {
    /** The backend flavour the page passes in (only "go" is wired up). */
    const flavor: string
    /** The mirrored list: the server's order reversed, with records
        created here put in front. */
    var users: seq<User>
    /** The create form's draft. */
    var newUser: NewUserDraft
    /** The update form's draft. */
    var updateUser: UpdateDraft

    /** A freshly mounted component: empty list, empty drafts. */
    constructor (flavor: string)
      ensures this.flavor == flavor
      ensures users == [] && newUser == EmptyNewUser && updateUser == EmptyUpdate
    {
      this.flavor := flavor;
      users := [];
      newUser := EmptyNewUser;
      updateUser := EmptyUpdate;
    }

    /** The mount effect: on success the list becomes the response read back
        to front; on failure it is left as it was. */
    method FetchData(response: Reply<seq<User>>)
      modifies this`users
      ensures response.Ok? ==> users == Reverse(response.data)
      ensures response.Failed? ==> users == old(users)
    {
      if response.Ok? {
        users := Reverse(response.data);
      }
    }

    /** Submitting the create form with the server's reply: on success the
        created record goes in front and the draft is cleared; on failure
        list and draft are kept so the user can resubmit. */
    method CreateUser(response: Reply<User>)
      modifies this`users, this`newUser
      ensures response.Ok? ==> users == Prepend(response.data, old(users)) && newUser == EmptyNewUser
      ensures response.Failed? ==> users == old(users) && newUser == old(newUser)
    {
      if response.Ok? {
        users := Prepend(response.data, users);
        newUser := EmptyNewUser;
      }
    }

    /** Submitting the update form: on success the draft is cleared and every
        record whose id equals `parseInt` of the draft id as it was at
        submission gets the draft's name and email; on failure nothing
        changes. */
    method HandleUpdateUser(succeeded: bool)
      modifies this`users, this`updateUser
      ensures succeeded ==> updateUser == EmptyUpdate
      ensures succeeded ==> users == UpdateById(old(users), ParseInt(old(updateUser).id),
                                                old(updateUser).name, old(updateUser).email)
      ensures !succeeded ==> users == old(users) && updateUser == old(updateUser)
    {
      if succeeded {
        var draft := updateUser;
        updateUser := EmptyUpdate;
        users := UpdateById(users, ParseInt(draft.id), draft.name, draft.email);
      }
    }

    /** A card's delete button: on success every record with `userId` is
        dropped; on failure the list is kept. */
    method DeleteUser(userId: int, succeeded: bool)
      modifies this`users
      ensures succeeded ==> users == DeleteById(old(users), userId)
      ensures !succeeded ==> users == old(users)
    {
      if succeeded {
        users := DeleteById(users, userId);
      }
    }

    /** Typing in the create form's name box. */
    method EditNewUserName(value: string)
      modifies this`newUser
      ensures newUser == old(newUser).(name := value)
    {
      newUser := newUser.(name := value);
    }

    /** Typing in the create form's email box. */
    method EditNewUserEmail(value: string)
      modifies this`newUser
      ensures newUser == old(newUser).(email := value)
    {
      newUser := newUser.(email := value);
    }

    /** Typing in the update form's id box. */
    method EditUpdateUserId(value: string)
      modifies this`updateUser
      ensures updateUser == old(updateUser).(id := value)
    {
      updateUser := updateUser.(id := value);
    }

    /** Typing in the update form's name box. */
    method EditUpdateUserName(value: string)
      modifies this`updateUser
      ensures updateUser == old(updateUser).(name := value)
    {
      updateUser := updateUser.(name := value);
    }

    /** Typing in the update form's email box. */
    method EditUpdateUserEmail(value: string)
      modifies this`updateUser
      ensures updateUser == old(updateUser).(email := value)
    {
      updateUser := updateUser.(email := value);
    }
  }

  /** Mount against an empty backend, fill in the create form and submit it;
      the server answers with id 5. The list then holds exactly that record
      and the create draft is empty again. */
  method CreateAfterEmptyLoad() returns (users: seq<User>, draft: NewUserDraft)
    ensures users == [User(5, "Ann", "a@x.com")]
    ensures draft == NewUserDraft("", "")
  {
    var ui := new UserInterface("go");
    ui.FetchData(Ok([]));
    ui.EditNewUserName("Ann");
    ui.EditNewUserEmail("a@x.com");
    ui.CreateUser(Ok(User(5, ui.newUser.name, ui.newUser.email)));
    users, draft := ui.users, ui.newUser;
  }

  /** Typing the decimal id of a listed record into the update form and
      submitting successfully rewrites that record's name and email and, when
      ids are unique, nothing else. */
  method UpdateByTypedId(start: seq<User>, k: nat, name: string, email: string)
    returns (users: seq<User>)
    requires k < |start| && UniqueIds(start)
    ensures users == start[k := User(start[k].id, name, email)]
  {
    var ui := new UserInterface("go");
    ui.FetchData(Ok(Reverse(start)));
    ReverseInvolutive(start);
    assert ui.users == start;
    var text := IntToText(start[k].id);
    ui.EditUpdateUserId(text);
    ui.EditUpdateUserName(name);
    ui.EditUpdateUserEmail(email);
    assert ui.updateUser == UpdateDraft(text, name, email);
    ParseIntOfText(start[k].id);
    UpdateUniqueRewritesOne(start, k, name, email);
    ui.HandleUpdateUser(true);
    users := ui.users;
  }
}
