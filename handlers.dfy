/**
 * The decisions of the request handlers that change the user table or mint links
 * (src/main.rs).  Each state-changing handler is a method on the shared `UserDatabase`,
 * proved equal to a function of the old table; the properties are lemmas about those
 * functions.  The reset handler holds the lock for its whole body.  The create handler
 * verifies the link and fills the builder before `add_user` takes the lock, and renders
 * after it is released; those steps read no table state, so one atomic step loses nothing.  Page rendering is abstracted:
 * a reply is the page's data.
 */
module Handlers {
  import opened Wrappers
  import opened Foreign
  import opened Users
  import opened Verify
  import opened Html

  const RESET_PASSWORD_PATHNAME: string := "/reset-password"
  const CREATE_USER_PATHNAME: string := "/create-user"

  datatype ServerError = RenderError | BadRequest

  /**
   * Why a request was rejected: one of the service's own errors, warp's not-found, or any
   * other rejection warp raises itself (a wrong method, an undecodable query or form).
   */
  datatype Rejection = Custom(error: ServerError) | NotFound | Other

  /** The form of a reset submission. */
  datatype ResetFormParams = ResetFormParams(requestedPassword: string)

  /** The form asking for a creation link. */
  datatype NewUserParams = NewUserParams(requestedEmail: string)

  /** The form of a creation submission: no address, that comes from the signed link. */
  datatype CreateUserParams = CreateUserParams(requestedName: string, requestedPassword: string)

  /** The data each page template is rendered from. */
  datatype Page =
    | ResetPasswordPage(user: User, success: Option<bool>)
    | NewUserPage(emailInfo: Option<(string, string)>)
    | CreateUserPage(success: Option<bool>)

  /** A handler's reply together with the table it leaves. */
  datatype Handled = Handled(reply: Result<Page, Rejection>, table: UserTable)

  /** `rejection_handler`: the status code each rejection is answered with. */
  function RejectionStatus(err: Rejection): (status: nat)
    ensures status == 400 <==> err == Custom(BadRequest)
    ensures status == 500 <==> err == Custom(RenderError)
    ensures status == 404 <==> !err.Custom?
  {
    match err
    case Custom(BadRequest) => 400
    case Custom(RenderError) => 500
    case _ => 404
  }

  /** `reset_password_post_handler` on the table, with the clock reading passed in. */
  function ResetPost(lib: Primitives, t: UserTable, urlParams: ResetParams,
                     form: ResetFormParams, now: Instant): (h: Handled)
    ensures h.reply.Err? <==> urlParams.userId !in t
    ensures h.reply.Err? ==> h.reply.error == NotFound
    ensures h.table.Keys == t.Keys
    ensures h.reply.Ok? ==> h.reply.value.ResetPasswordPage?
                            && h.reply.value.success == Some(ResetVerify(lib, t[urlParams.userId], urlParams, now))
  {
    var id := urlParams.userId;
    if id !in t then Handled(Err(NotFound), t)
    else
      var isValid := ResetVerify(lib, t[id], urlParams, now);
      if isValid then
        var user := ResetPassword(lib, t[id], form.requestedPassword);
        Handled(Ok(ResetPasswordPage(user, Some(true))), t[id := user])
      else Handled(Ok(ResetPasswordPage(t[id], Some(false))), t)
  }

  /** `create_user_post_handler` on the table, with the id `build` draws passed in. */
  function CreatePost(lib: Primitives, t: UserTable, urlParams: CreateParams,
                      form: CreateUserParams, id: UserId): (h: Handled)
    ensures h.reply.Err? ==> h.reply == Err(Custom(BadRequest)) && h.table == t
    ensures h.reply.Ok? ==> h.reply.value == CreateUserPage(Some(CreateVerify(lib, urlParams.email, urlParams)))
    ensures h.table != t ==> h.table.Keys == t.Keys + {id}
  {
    var requestedEmail := urlParams.email;
    if !CreateVerify(lib, requestedEmail, urlParams) then Handled(Ok(CreateUserPage(Some(false))), t)
    else
      var added := AddTo(t, BuildUser(lib, Some(form.requestedName), Some(requestedEmail),
                                      Some(form.requestedPassword), id));
      if added.ok then Handled(Ok(CreateUserPage(Some(true))), added.table)
      else Handled(Err(Custom(BadRequest)), t)
  }

  /**
   * `new_user_post_handler`: a page holding the creation link for the requested address.
   * `serialize` stands for `serde_url_params::to_string`.
   */
  function NewUserPost(lib: Primitives, form: NewUserParams, serialize: CreateParams -> string): (reply: Result<Page, Rejection>)
    ensures reply.Ok? && reply.value.NewUserPage? && reply.value.emailInfo.Some?
    ensures reply.value.emailInfo.value.1 == form.requestedEmail
  {
    var email := form.requestedEmail;
    var verifyParams := CreateFrom(lib, email);
    var url := CreateUrl(CREATE_USER_PATHNAME, Some(verifyParams), serialize);
    Ok(NewUserPage(Some((url, email))))
  }

  method ResetPasswordPostHandler(db: UserDatabase, lib: Primitives, urlParams: ResetParams,
                                  form: ResetFormParams, now: Instant)
    returns (reply: Result<Page, Rejection>)
    requires db.Valid()
    modifies db
    ensures db.Valid()
    ensures Handled(reply, db.users) == ResetPost(lib, old(db.users), urlParams, form, now)
  {
    var id := urlParams.userId;
    if id !in db.users {
      return Err(NotFound);
    }
    var user := db.users[id];
    var isValid := ResetVerify(lib, user, urlParams, now);
    if isValid {
      user := ResetPassword(lib, user, form.requestedPassword);
      db.users := db.users[id := user];
    }
    reply := Ok(ResetPasswordPage(user, Some(isValid)));
  }

  method CreateUserPostHandler(db: UserDatabase, lib: Primitives, urlParams: CreateParams,
                               form: CreateUserParams, id: UserId)
    returns (reply: Result<Page, Rejection>)
    requires db.Valid()
    modifies db
    ensures db.Valid()
    ensures Handled(reply, db.users) == CreatePost(lib, old(db.users), urlParams, form, id)
  {
    var requestedEmail := urlParams.email;
    var isValid := CreateVerify(lib, requestedEmail, urlParams);
    if isValid {
      var newUser := new UserBuilder();
      newUser.WithEmail(requestedEmail);
      newUser.WithPassword(form.requestedPassword);
      newUser.WithName(form.requestedName);
      var added := db.AddUser(lib, newUser, id);
      if added.Err? {
        return Err(Custom(BadRequest));
      }
    }
    reply := Ok(CreateUserPage(Some(isValid)));
  }

  /** A reset for an id the table does not hold is not found and changes nothing. */
  lemma ResetPostUnknownId(lib: Primitives, t: UserTable, urlParams: ResetParams,
                           form: ResetFormParams, now: Instant)
    requires urlParams.userId !in t
    ensures ResetPost(lib, t, urlParams, form, now) == Handled(Err(NotFound), t)
    ensures RejectionStatus(ResetPost(lib, t, urlParams, form, now).reply.error) == 404
  {
  }

  /**
   * A reset changes the table only when the link verifies against the account looked up by
   * the link's id, and then only that account's credential, to the hash of the new password.
   */
  lemma ResetPostChangesOnlyWhenVerified(lib: Primitives, t: UserTable, urlParams: ResetParams,
                                         form: ResetFormParams, now: Instant)
    ensures var h := ResetPost(lib, t, urlParams, form, now);
            h.table != t ==>
              && urlParams.userId in t
              && ResetVerify(lib, t[urlParams.userId], urlParams, now)
              && h.table.Keys == t.Keys
              && (forall id :: id in t && id != urlParams.userId ==> h.table[id] == t[id])
              && h.table[urlParams.userId].id == t[urlParams.userId].id
              && h.table[urlParams.userId].name == t[urlParams.userId].name
              && h.table[urlParams.userId].email == t[urlParams.userId].email
              && h.table[urlParams.userId].bcryptPassword == lib.bcrypt(form.requestedPassword, BCRYPT_COST)
    ensures var h := ResetPost(lib, t, urlParams, form, now);
            urlParams.userId in t && !ResetVerify(lib, t[urlParams.userId], urlParams, now) ==>
              h.table == t && h.reply == Ok(ResetPasswordPage(t[urlParams.userId], Some(false)))
  {
  }

  /** An expired link changes nothing, whatever its token. */
  lemma ResetPostExpiredChangesNothing(lib: Primitives, t: UserTable, urlParams: ResetParams,
                                       form: ResetFormParams, now: Instant)
    requires now > urlParams.expires
    ensures ResetPost(lib, t, urlParams, form, now).table == t
  {
  }

  /** Following a reset link the service issued, in time, resets that account's password. */
  lemma ResetPostWithIssuedLink(lib: Primitives, t: UserTable, id: UserId, issuedAt: Instant,
                                form: ResetFormParams, now: Instant)
    requires KeysMatchIds(t) && id in t
    requires now <= issuedAt + RESET_LIFETIME
    ensures var h := ResetPost(lib, t, ResetFrom(lib, t[id], issuedAt), form, now);
            h.table == t[id := ResetPassword(lib, t[id], form.requestedPassword)]
            && h.reply.Ok? && h.reply.value.success == Some(true)
  {
    ResetRoundTrip(lib, t[id], issuedAt, now);
  }

  /**
   * A token issued for one account cannot reset another account's password, even when the
   * link names the other account (given an ideal MAC and chrono's text shape).
   */
  lemma ResetPostRejectsForeignToken(lib: Primitives, t: UserTable, victim: UserId, owner: User,
                                     issuedAt: Instant, urlParams: ResetParams,
                                     form: ResetFormParams, now: Instant)
    requires KeysMatchIds(t) && victim in t && owner.id != victim
    requires MacCollisionFree(lib)
    requires ExpiryShaped(lib.expiryText(issuedAt + RESET_LIFETIME))
    requires ExpiryShaped(lib.expiryText(urlParams.expires))
    requires urlParams.userId == victim
    requires urlParams.token == ResetFrom(lib, owner, issuedAt).token
    ensures ResetPost(lib, t, urlParams, form, now).table == t
  {
    if ResetVerify(lib, t[victim], urlParams, now) {
      ResetTokenBindsAccount(lib, owner, t[victim], issuedAt, urlParams, now);
    }
  }

  /** Resets keep every account under its own id and keep addresses unique. */
  lemma ResetPostKeepsInvariants(lib: Primitives, t: UserTable, urlParams: ResetParams,
                                 form: ResetFormParams, now: Instant)
    requires KeysMatchIds(t)
    ensures KeysMatchIds(ResetPost(lib, t, urlParams, form, now).table)
    ensures UniqueEmails(t) ==> UniqueEmails(ResetPost(lib, t, urlParams, form, now).table)
  {
  }

  /** A creation link that does not verify adds nobody and reports failure on the page. */
  lemma CreatePostInvalidToken(lib: Primitives, t: UserTable, urlParams: CreateParams,
                               form: CreateUserParams, id: UserId)
    requires !CreateVerify(lib, urlParams.email, urlParams)
    ensures CreatePost(lib, t, urlParams, form, id) == Handled(Ok(CreateUserPage(Some(false))), t)
  {
  }

  /** When the address is already taken the request is a bad request (400) and nothing changes. */
  lemma CreatePostDuplicateIsBadRequest(lib: Primitives, t: UserTable, urlParams: CreateParams,
                                        form: CreateUserParams, id: UserId)
    requires CreateVerify(lib, urlParams.email, urlParams)
    requires HasEmail(t, urlParams.email)
    ensures CreatePost(lib, t, urlParams, form, id) == Handled(Err(Custom(BadRequest)), t)
    ensures RejectionStatus(CreatePost(lib, t, urlParams, form, id).reply.error) == 400
  {
  }

  /**
   * A creation that changes the table verified its link and stored one account at `id`, whose
   * address is the one signed in the link and whose name and password come from the form.
   */
  lemma CreatePostUsesSignedEmail(lib: Primitives, t: UserTable, urlParams: CreateParams,
                                  form: CreateUserParams, id: UserId)
    ensures var h := CreatePost(lib, t, urlParams, form, id);
            h.table != t ==>
              && CreateVerify(lib, urlParams.email, urlParams)
              && !HasEmail(t, urlParams.email)
              && h.table == t[id := User(id, form.requestedName, urlParams.email,
                                         lib.bcrypt(form.requestedPassword, BCRYPT_COST))]
              && h.reply == Ok(CreateUserPage(Some(true)))
  {
  }

  /** Creations keep every account under its own id and keep addresses unique. */
  lemma CreatePostKeepsInvariants(lib: Primitives, t: UserTable, urlParams: CreateParams,
                                  form: CreateUserParams, id: UserId)
    requires KeysMatchIds(t)
    ensures KeysMatchIds(CreatePost(lib, t, urlParams, form, id).table)
    ensures UniqueEmails(t) ==> UniqueEmails(CreatePost(lib, t, urlParams, form, id).table)
  {
    var built := BuildUser(lib, Some(form.requestedName), Some(urlParams.email),
                           Some(form.requestedPassword), id);
    AddKeepsKeysMatchingIds(t, built);
    if UniqueEmails(t) {
      AddKeepsEmailsUnique(t, built);
    }
  }

  /**
   * The page `new_user_post_handler` returns links to the creation path with exactly the
   * parameters `CreateParams::from` issues for the requested address, and submitting those
   * parameters with a fresh address creates the account.
   */
  lemma NewUserLinkCreatesAccount(lib: Primitives, t: UserTable, form: NewUserParams,
                                  serialize: CreateParams -> string,
                                  createForm: CreateUserParams, id: UserId)
    requires !HasEmail(t, form.requestedEmail)
    ensures var url := NewUserPost(lib, form, serialize).value.emailInfo.value.0;
            && PathPart(url) == CREATE_USER_PATHNAME
            && QueryPart(url) == Some(serialize(CreateFrom(lib, form.requestedEmail)))
    ensures CreatePost(lib, t, CreateFrom(lib, form.requestedEmail), createForm, id).table
              == t[id := User(id, createForm.requestedName, form.requestedEmail,
                              lib.bcrypt(createForm.requestedPassword, BCRYPT_COST))]
  {
    UrlRoundTrip(CREATE_USER_PATHNAME, Some(CreateFrom(lib, form.requestedEmail)), serialize);
    CreateRoundTrip(lib, form.requestedEmail);
  }
}
