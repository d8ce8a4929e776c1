/** The sign-in rules of `AuthContext.tsx`: the e-mail whitelist, the order
    of the check and the sign-in in `login`, `signup` and `loginWithGoogle`,
    and the profile document the provider loads or creates. Firebase is
    abstract: whether `auth` and `db` were initialised, what the whitelist
    lookup, the sign-in calls and the profile read return, and the server
    time are inputs, and each call the code makes is recorded as an effect. */
module Auth {
  import opened Wrappers
  import opened Types

  /** What reading the `settings/whitelist` document gives. */
  datatype Lookup =
    | DocMissing
    | DocFound(allowedEmails: Option<seq<string>>)  // None: the field is absent or falsy
    | LookupFailed

  /** `isWhitelisted(email)` */
  function IsWhitelisted(dbReady: bool, lookup: Lookup, email: string): (allowed: bool)
    ensures !dbReady ==> allowed
    ensures dbReady && lookup.DocMissing? ==> allowed
    ensures dbReady && lookup.LookupFailed? ==> !allowed
    ensures dbReady && lookup.DocFound? ==>
      (allowed <==> lookup.allowedEmails.Some? && email in lookup.allowedEmails.value)
  {
    if !dbReady then true
    else match lookup
      case DocMissing => true
      case LookupFailed => false
      case DocFound(emails) => email in emails.GetOr([])
  }

  /** A whitelist document without `allowedEmails` lets nobody in. */
  lemma EmptyWhitelistDeniesAll(email: string)
    ensures !IsWhitelisted(true, DocFound(None), email)
    ensures !IsWhitelisted(true, DocFound(Some([])), email)
  {
  }

  /** Membership is exact: an address that differs from a listed one only
      in letter case is refused. */
  lemma WhitelistIsCaseSensitive()
    ensures IsWhitelisted(true, DocFound(Some(["Reader@Example.com"])), "Reader@Example.com")
    ensures !IsWhitelisted(true, DocFound(Some(["Reader@Example.com"])), "reader@example.com")
  {
    assert "reader@example.com" != "Reader@Example.com" by {
      assert "reader@example.com"[0] != "Reader@Example.com"[0];
    }
  }

  /** A signed-in Firebase account. */
  datatype Account = Account(uid: string, email: string, displayName: Option<string>)

  /** The fields of a stored profile document, each possibly missing. */
  datatype StoredProfile = StoredProfile(
    displayName: Option<string>,
    createdAt: Option<Instant>,
    theme: Option<Theme>,
    readingGoal: Option<int>,
    settings: Option<Settings>)

  const DefaultSettings := Settings(Some(Grid), Some(true))

  /** The errors the three actions throw. */
  datatype AuthError =
    | NotInitialised             // 'Firebase není inicializováno'
    | NotAllowed                 // 'Tento email není povolen. ...'
    | FirebaseError(message: string)
    | UndefinedField             // Firestore refuses a document with an `undefined` field

  /** The calls an action makes, in order. */
  datatype Effect =
    | WhitelistChecked(email: string, allowed: bool)
    | SignInRequested(email: string)
    | AccountRequested(email: string)
    | PopupRequested
    | SignedOut
    | ProfileRead(uid: string)
    | ProfileWritten(uid: string, profile: User)

  /** Every password sign-in and every account creation comes right after a
      whitelist check that let the same address in. */
  predicate CheckedFirst(effects: seq<Effect>) {
    forall i :: 0 <= i < |effects| && (effects[i].SignInRequested? || effects[i].AccountRequested?) ==>
      i > 0 && effects[i - 1] == WhitelistChecked(effects[i].email, true)
  }

  /** The profile document written for a new account: theme 'system', a
      reading goal of 24 and the default settings. */
  function NewProfile(uid: string, email: string, displayName: Option<string>, createdAt: Instant): (u: User)
    ensures u.uid == uid && u.email == email && u.displayName == displayName && u.createdAt == createdAt
    ensures u.theme == Some(System) && u.readingGoal == Some(DefaultReadingGoal) && u.settings == Some(DefaultSettings)
  {
    User(uid, email, displayName, createdAt, Some(System), Some(DefaultReadingGoal), Some(DefaultSettings))
  }

  /** `displayName || undefined` */
  function DefinedName(name: Option<string>): (r: Option<string>)
    ensures r.Some? <==> name.Some? && name.value != ""
    ensures r.Some? ==> r == name
  {
    if name.Some? && name.value != "" then name else None
  }

  /** Firestore stores the document, or refuses it when a field is
      `undefined` and `ignoreUndefinedProperties` is off; the display name is
      the only field that can be. */
  predicate Storable(profile: User, ignoreUndefined: bool) {
    ignoreUndefined || profile.displayName.Some?
  }

  /** `login(email, password)` */
  method Login(authReady: bool, dbReady: bool, lookup: Lookup, email: string, signInError: Option<string>)
    returns (effects: seq<Effect>, outcome: Result<(), AuthError>)
    ensures CheckedFirst(effects)
    ensures !authReady ==> effects == [] && outcome == Failure(NotInitialised)
    ensures authReady && !IsWhitelisted(dbReady, lookup, email) ==>
      effects == [WhitelistChecked(email, false)] && outcome == Failure(NotAllowed)
    ensures authReady && IsWhitelisted(dbReady, lookup, email) ==>
      effects == [WhitelistChecked(email, true), SignInRequested(email)]
    ensures outcome.Success? <==> authReady && IsWhitelisted(dbReady, lookup, email) && signInError.None?
  {
    if !authReady {
      return [], Failure(NotInitialised);
    }
    var whitelisted := IsWhitelisted(dbReady, lookup, email);
    effects := [WhitelistChecked(email, whitelisted)];
    if !whitelisted {
      return effects, Failure(NotAllowed);
    }
    effects := effects + [SignInRequested(email)];
    outcome := if signInError.Some? then Failure(FirebaseError(signInError.value)) else Success(());
  }

  /** `signup(email, password, displayName)`: the account, then its profile
      document with the server time as `createdAt`. */
  method Signup(authReady: bool, dbReady: bool, lookup: Lookup, email: string, displayName: string,
                created: Result<string, string>, serverTime: Instant)
    returns (effects: seq<Effect>, outcome: Result<(), AuthError>)
    ensures CheckedFirst(effects)
    ensures !(authReady && dbReady) ==> effects == [] && outcome == Failure(NotInitialised)
    ensures authReady && dbReady && !IsWhitelisted(dbReady, lookup, email) ==>
      effects == [WhitelistChecked(email, false)] && outcome == Failure(NotAllowed)
    ensures authReady && dbReady && IsWhitelisted(dbReady, lookup, email) && created.Failure? ==>
      effects == [WhitelistChecked(email, true), AccountRequested(email)] && outcome == Failure(FirebaseError(created.error))
    ensures authReady && dbReady && IsWhitelisted(dbReady, lookup, email) && created.Success? ==>
      && effects == [WhitelistChecked(email, true), AccountRequested(email),
                     ProfileWritten(created.value, NewProfile(created.value, email, Some(displayName), serverTime))]
      && outcome.Success?
  {
    if !authReady || !dbReady {
      return [], Failure(NotInitialised);
    }
    var whitelisted := IsWhitelisted(dbReady, lookup, email);
    effects := [WhitelistChecked(email, whitelisted)];
    if !whitelisted {
      return effects, Failure(NotAllowed);
    }
    effects := effects + [AccountRequested(email)];
    if created.Failure? {
      return effects, Failure(FirebaseError(created.error));
    }
    var uid := created.value;
    effects := effects + [ProfileWritten(uid, NewProfile(uid, email, Some(displayName), serverTime))];
    outcome := Success(());
  }

  /** `loginWithGoogle()`: the popup sign-in comes first; an address that is
      not whitelisted is signed out again. A first sign-in creates the profile
      document. */
  method LoginWithGoogle(authReady: bool, dbReady: bool, popup: Result<Account, string>, lookup: Lookup,
                         profileExists: bool, ignoreUndefined: bool, serverTime: Instant)
    returns (effects: seq<Effect>, outcome: Result<(), AuthError>)
    ensures CheckedFirst(effects)
    ensures !(authReady && dbReady) ==> effects == [] && outcome == Failure(NotInitialised)
    ensures authReady && dbReady && popup.Failure? ==>
      effects == [PopupRequested] && outcome == Failure(FirebaseError(popup.error))
    ensures authReady && dbReady && popup.Success? && !IsWhitelisted(true, lookup, popup.value.email) ==>
      effects == [PopupRequested, WhitelistChecked(popup.value.email, false), SignedOut]
      && outcome == Failure(NotAllowed)
    ensures authReady && dbReady && popup.Success? && IsWhitelisted(true, lookup, popup.value.email) ==>
      var account := popup.value;
      var profile := NewProfile(account.uid, account.email, DefinedName(account.displayName), serverTime);
      && |effects| >= 3
      && effects[..3] == [PopupRequested, WhitelistChecked(account.email, true), ProfileRead(account.uid)]
      && (profileExists ==> |effects| == 3 && outcome.Success?)
      && (!profileExists && Storable(profile, ignoreUndefined) ==>
            effects == effects[..3] + [ProfileWritten(account.uid, profile)] && outcome.Success?)
      && (!profileExists && !Storable(profile, ignoreUndefined) ==>
            |effects| == 3 && outcome == Failure(UndefinedField))
  {
    if !authReady || !dbReady {
      return [], Failure(NotInitialised);
    }
    effects := [PopupRequested];
    if popup.Failure? {
      return effects, Failure(FirebaseError(popup.error));
    }
    var account := popup.value;
    var whitelisted := IsWhitelisted(dbReady, lookup, account.email);
    effects := effects + [WhitelistChecked(account.email, whitelisted)];
    if !whitelisted {
      effects := effects + [SignedOut];
      return effects, Failure(NotAllowed);
    }
    effects := effects + [ProfileRead(account.uid)];
    outcome := Success(());
    if !profileExists {
      var profile := NewProfile(account.uid, account.email, DefinedName(account.displayName), serverTime);
      if Storable(profile, ignoreUndefined) {
        effects := effects + [ProfileWritten(account.uid, profile)];
      } else {
        outcome := Failure(UndefinedField);
      }
    }
  }

  /** The profile the provider keeps for an existing document: the stored
      values, with the account's name, the current time, theme 'system', a
      goal of 24 and the default settings for those missing or falsy. */
  function LoadedProfile(account: Account, stored: StoredProfile, now: Instant): (u: User)
    ensures u.uid == account.uid && u.email == account.email
    ensures u.readingGoal.Some? && u.readingGoal.value != 0
    ensures stored.readingGoal.Some? && stored.readingGoal.value != 0 ==> u.readingGoal == stored.readingGoal
    ensures stored.readingGoal.None? || stored.readingGoal.value == 0 ==> u.readingGoal == Some(DefaultReadingGoal)
    ensures u.theme == Some(stored.theme.GetOr(System))
    ensures u.settings == Some(stored.settings.GetOr(DefaultSettings))
    ensures u.createdAt == stored.createdAt.GetOr(now)
    ensures u.displayName == if stored.displayName.Some? && stored.displayName.value != "" then stored.displayName
                             else account.displayName
  {
    User(
      account.uid,
      account.email,
      if stored.displayName.Some? && stored.displayName.value != "" then stored.displayName else account.displayName,
      stored.createdAt.GetOr(now),
      Some(stored.theme.GetOr(System)),
      Some(if stored.readingGoal.Some? && stored.readingGoal.value != 0 then stored.readingGoal.value
           else DefaultReadingGoal),
      Some(stored.settings.GetOr(DefaultSettings)))
  }

  /** The provider's state: the Firebase account, the loaded profile and the
      loading flag. */
  class AuthState {
    var user: Option<Account>
    var userData: Option<User>
    var loading: bool

    /** Both effects of the mount: without a window or without `auth`
        nothing will ever load, so loading ends at once. */
    constructor(inBrowser: bool, authReady: bool)
      ensures user.None? && userData.None?
      ensures loading <==> inBrowser && authReady
    {
      user := None;
      userData := None;
      loading := true;
      if !inBrowser || !authReady {
        loading := false;
      }
    }

    /** The `onAuthStateChanged` callback. `stored` is the profile document
        the read returns, if any. */
    method OnAuthStateChanged(account: Option<Account>, dbReady: bool, stored: Option<StoredProfile>,
                              now: Instant, serverTime: Instant, ignoreUndefined: bool)
      returns (effects: seq<Effect>)
      modifies this
      ensures account.None? ==> user.None? && userData.None? && !loading && effects == []
      ensures account.Some? ==> user == account
      ensures account.Some? && !dbReady ==>
        userData == old(userData) && loading == old(loading) && effects == []
      ensures account.Some? && dbReady && stored.Some? ==>
        && userData == Some(LoadedProfile(account.value, stored.value, now))
        && !loading
        && effects == [ProfileRead(account.value.uid)]
      ensures account.Some? && dbReady && stored.None? ==>
        var a := account.value;
        var profile := NewProfile(a.uid, a.email, DefinedName(a.displayName), now);
        if Storable(profile, ignoreUndefined) then
          && userData == Some(profile)
          && !loading
          && effects == [ProfileRead(a.uid), ProfileWritten(a.uid, profile.(createdAt := serverTime))]
        else
          userData == old(userData) && loading == old(loading) && effects == [ProfileRead(a.uid)]
    {
      effects := [];
      if account.None? {
        user := None;
        userData := None;
        loading := false;
        return;
      }
      var a := account.value;
      user := account;
      if !dbReady {
        return;
      }
      effects := [ProfileRead(a.uid)];
      if stored.Some? {
        userData := Some(LoadedProfile(a, stored.value, now));
      } else {
        var profile := NewProfile(a.uid, a.email, DefinedName(a.displayName), now);
        if !Storable(profile, ignoreUndefined) {
          return;
        }
        effects := effects + [ProfileWritten(a.uid, profile.(createdAt := serverTime))];
        userData := Some(profile);
      }
      loading := false;
    }
  }

  /** With `auth` but no `db`, a sign-in leaves the provider loading: the
      callback returns before the flag is cleared. */
  method SignInWithoutDatabase(account: Account, now: Instant, serverTime: Instant, ignoreUndefined: bool)
    returns (state: AuthState)
    ensures state.user == Some(account) && state.userData.None? && state.loading
  {
    state := new AuthState(true, true);
    var effects := state.OnAuthStateChanged(Some(account), false, None, now, serverTime, ignoreUndefined);
  }
}
