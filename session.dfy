/**
 * The login session of `utils/SessionManager.java`: a logged-in flag and
 * the user's five strings in a preferences file.
 */
module Session {
  import opened JavaLang
  import opened Preferences

  const KEY_IS_LOGGED_IN: string := "isLoggedIn"
  const KEY_USER_ID: string := "userId"
  const KEY_USER_NAME: string := "userName"
  const KEY_USER_EMAIL: string := "userEmail"
  const KEY_USER_PHOTO: string := "userPhotoUrl"
  const KEY_USER_BIO: string := "userBio"

  /** `models/User.java`: five nullable strings. */
  datatype User = User(id: Option<string>, name: Option<string>, email: Option<string>,
                       photoUrl: Option<string>, bio: Option<string>)

  /** The store after `createLoginSession(user)`: the flag set and the five strings written (a null one removes its key). */
  function WithSession(p: Store, user: User): (r: Store)
    ensures KEY_IS_LOGGED_IN in r && r[KEY_IS_LOGGED_IN] == BoolPref(true)
    ensures forall k :: k in p && k !in {KEY_IS_LOGGED_IN, KEY_USER_ID, KEY_USER_NAME, KEY_USER_EMAIL, KEY_USER_PHOTO, KEY_USER_BIO} ==>
      k in r && r[k] == p[k]
  {
    var p1 := p[KEY_IS_LOGGED_IN := BoolPref(true)];
    var p2 := PutString(p1, KEY_USER_ID, user.id);
    var p3 := PutString(p2, KEY_USER_NAME, user.name);
    var p4 := PutString(p3, KEY_USER_EMAIL, user.email);
    var p5 := PutString(p4, KEY_USER_PHOTO, user.photoUrl);
    PutString(p5, KEY_USER_BIO, user.bio)
  }

  /** `isLoggedIn`: the flag, false when missing. */
  function LoggedInFlag(p: Store): (r: Result<bool>)
    ensures KEY_IS_LOGGED_IN !in p ==> r == Ok(false)
  {
    GetBoolean(p, KEY_IS_LOGGED_IN, false)
  }

  /** One of the user's strings: "" when missing. */
  function StoredString(p: Store, key: string): (r: Result<string>)
    ensures key !in p ==> r == Ok("")
    ensures key in p ==> (r.Ok? <==> p[key].StringPref?)
    ensures key in p && r.Ok? ==> r.value == p[key].s
  {
    var v := GetString(p, key, Some(""));
    if v.Thrown? then Thrown(v.exception) else Ok(v.value.value)
  }

  /**
   * `getUser`: null unless logged in; otherwise a user whose five strings
   * are read from the store, "" for a missing one. A key of the wrong type
   * throws ClassCastException.
   */
  function StoredUser(p: Store): (r: Result<Option<User>>)
    ensures LoggedInFlag(p) == Ok(false) ==> r == Ok(None)
    ensures LoggedInFlag(p) == Ok(true) && r.Ok? ==> r.value.Some?
    ensures r.Ok? && r.value.Some? ==>
      var u := r.value.value;
      && LoggedInFlag(p) == Ok(true)
      && u.id.Some? && u.name.Some? && u.email.Some? && u.photoUrl.Some? && u.bio.Some?
      && StoredString(p, KEY_USER_ID) == Ok(u.id.value) && StoredString(p, KEY_USER_NAME) == Ok(u.name.value)
      && StoredString(p, KEY_USER_EMAIL) == Ok(u.email.value) && StoredString(p, KEY_USER_PHOTO) == Ok(u.photoUrl.value)
      && StoredString(p, KEY_USER_BIO) == Ok(u.bio.value)
  {
    var flag := LoggedInFlag(p);
    if flag.Thrown? then Thrown(flag.exception)
    else if !flag.value then Ok(None)
    else
      var id := StoredString(p, KEY_USER_ID);
      var name := StoredString(p, KEY_USER_NAME);
      var email := StoredString(p, KEY_USER_EMAIL);
      var photo := StoredString(p, KEY_USER_PHOTO);
      var bio := StoredString(p, KEY_USER_BIO);
      if id.Thrown? then Thrown(id.exception)
      else if name.Thrown? then Thrown(name.exception)
      else if email.Thrown? then Thrown(email.exception)
      else if photo.Thrown? then Thrown(photo.exception)
      else if bio.Thrown? then Thrown(bio.exception)
      else Ok(Some(User(Some(id.value), Some(name.value), Some(email.value), Some(photo.value), Some(bio.value))))
  }

  /** A user whose null strings read back as "". */
  function ReadBack(user: User): User
  {
    User(Some(user.id.GetOr("")), Some(user.name.GetOr("")), Some(user.email.GetOr("")),
         Some(user.photoUrl.GetOr("")), Some(user.bio.GetOr("")))
  }

  /** After `createLoginSession(u)` the session is logged in and `getUser` returns u's five strings, null ones as "". */
  lemma LoginRoundTrip(p: Store, user: User)
    ensures LoggedInFlag(WithSession(p, user)) == Ok(true)
    ensures StoredUser(WithSession(p, user)) == Ok(Some(ReadBack(user)))
  {
    var r := WithSession(p, user);
    assert StoredString(r, KEY_USER_ID) == Ok(user.id.GetOr(""));
    assert StoredString(r, KEY_USER_NAME) == Ok(user.name.GetOr(""));
    assert StoredString(r, KEY_USER_EMAIL) == Ok(user.email.GetOr(""));
    assert StoredString(r, KEY_USER_PHOTO) == Ok(user.photoUrl.GetOr(""));
  }

  /** A user with five non-null strings comes back unchanged. */
  lemma LoginRoundTripExact(p: Store, user: User)
    requires user.id.Some? && user.name.Some? && user.email.Some? && user.photoUrl.Some? && user.bio.Some?
    ensures StoredUser(WithSession(p, user)) == Ok(Some(user))
  {
    LoginRoundTrip(p, user);
  }

  /** The session store of one app; `apply` writes are modelled as immediate. */
  class SessionManager {
    var pref: Store

    constructor (initial: Store)
      ensures pref == initial
    {
      pref := initial;
    }

    /** `createLoginSession`: sets the flag and writes the user's strings. */
    method CreateLoginSession(user: User)
      modifies this
      ensures pref == WithSession(old(pref), user)
      ensures IsLoggedIn() == Ok(true)
    {
      pref := pref[KEY_IS_LOGGED_IN := BoolPref(true)];
      pref := PutString(pref, KEY_USER_ID, user.id);
      pref := PutString(pref, KEY_USER_NAME, user.name);
      pref := PutString(pref, KEY_USER_EMAIL, user.email);
      pref := PutString(pref, KEY_USER_PHOTO, user.photoUrl);
      pref := PutString(pref, KEY_USER_BIO, user.bio);
    }

    /** `isLoggedIn`. */
    function IsLoggedIn(): (r: Result<bool>)
      reads this
      ensures KEY_IS_LOGGED_IN !in pref ==> r == Ok(false)
      ensures KEY_IS_LOGGED_IN in pref && pref[KEY_IS_LOGGED_IN] == BoolPref(true) ==> r == Ok(true)
    {
      LoggedInFlag(pref)
    }

    /** `getUser`. */
    method GetUser() returns (user: Result<Option<User>>)
      ensures IsLoggedIn() == Ok(false) ==> user == Ok(None)
      ensures user == StoredUser(pref)
    {
      var loggedIn := IsLoggedIn();
      if loggedIn.Thrown? {
        return Thrown(loggedIn.exception);
      }
      if !loggedIn.value {
        return Ok(None);
      }
      user := StoredUser(pref);
    }

    /** `logoutUser`: clears every key, so the session is logged out and there is no user. */
    method LogoutUser()
      modifies this
      ensures pref == map[]
      ensures IsLoggedIn() == Ok(false) && StoredUser(pref) == Ok(None)
    {
      pref := map[];
    }
  }
}
