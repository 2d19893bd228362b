/**
 * The logic of components/dashboard/user-profile.tsx: the profile record
 * built from the signed-in account, and the initials shown in the avatar.
 */
module Profile {
  import opened Wrappers
  import opened Text

  /** The account fields the identity provider reports; each may be null. */
  datatype AuthUser = AuthUser(displayName: Option<string>, email: Option<string>, photoUrl: Option<string>)

  datatype UserProfile = UserProfile(name: string, email: string, avatar: Option<string>)

  const DefaultName := "User"
  const DefaultEmail := "No email"
  const NoUserInitials := "U"

  /** A nullable string that JavaScript treats as true: present and non-empty. */
  predicate Truthy(s: Option<string>) {
    s.Some? && s.value != []
  }

  /** `s || fallback`. */
  function OrElse(s: Option<string>, fallback: string): string {
    if Truthy(s) then s.value else fallback
  }

  /**
   * The `onAuthStateChanged` callback: no account gives no profile; an
   * account gives its name and email, "User" and "No email" when those are
   * null or empty, and an avatar exactly when it has a non-empty photo URL.
   */
  function ToProfile(u: Option<AuthUser>): (r: Option<UserProfile>)
    ensures r.None? <==> u.None?
    ensures r.Some? ==> r.value.name != [] && r.value.email != []
    ensures r.Some? && Truthy(u.value.displayName) ==> r.value.name == u.value.displayName.value
    ensures r.Some? && !Truthy(u.value.displayName) ==> r.value.name == DefaultName
    ensures r.Some? && Truthy(u.value.email) ==> r.value.email == u.value.email.value
    ensures r.Some? && !Truthy(u.value.email) ==> r.value.email == DefaultEmail
    ensures r.Some? ==> (r.value.avatar.Some? <==> Truthy(u.value.photoUrl))
    ensures r.Some? && r.value.avatar.Some? ==> r.value.avatar.value == u.value.photoUrl.value
  {
    match u
    case None => None
    case Some(a) =>
      Some(UserProfile(
        OrElse(a.displayName, DefaultName),
        OrElse(a.email, DefaultEmail),
        if Truthy(a.photoUrl) then a.photoUrl else None))
  }

  /** The first code point of every non-empty piece; an empty piece's `n[0]` is undefined and joins as "". */
  function FirstChars(parts: seq<string>): string {
    if parts == [] then []
    else (if parts[0] == [] then [] else [parts[0][0]]) + FirstChars(parts[1..])
  }

  /**
   * The reference reading of initials: the code points of `s` that are not
   * spaces and follow a space or the start (`afterSpace` says whether the
   * text before `s` ended a word).
   */
  function WordStarts(s: string, afterSpace: bool): string {
    if s == [] then []
    else (if s[0] != ' ' && afterSpace then [s[0]] else []) + WordStarts(s[1..], s[0] == ' ')
  }

  /** Past the first code point, a word without spaces starts no further word. */
  lemma {:induction false} WordStartsOfOneWord(s: string)
    requires ' ' !in s
    ensures WordStarts(s, false) == []
    ensures s != [] ==> WordStarts(s, true) == [s[0]]
  {
    if s != [] {
      assert ' ' !in s[1..] by {
        assert forall c :: c in s[1..] ==> c in s;
      }
      WordStartsOfOneWord(s[1..]);
    }
  }

  lemma {:induction false} FirstCharsOfSplit(s: string)
    ensures FirstChars(Split(s, ' ')) == WordStarts(s, true)
    ensures FirstChars(Split(s, ' ')[1..]) == WordStarts(s, false)
  {
    if s != [] {
      FirstCharsOfSplit(s[1..]);
      var rest := Split(s[1..], ' ');
      if s[0] == ' ' {
        assert Split(s, ' ') == [[]] + rest;
        assert Split(s, ' ')[1..] == rest;
      } else {
        var parts := Split(s, ' ');
        assert parts == [[s[0]] + rest[0]] + rest[1..];
        assert parts[1..] == rest[1..];
        assert parts[0][0] == s[0];
      }
    }
  }

  /** `(user?.name || "U")`: the text the initials are taken from. */
  function InitialsSource(user: Option<UserProfile>): string {
    if user.Some? && user.value.name != [] then user.value.name else NoUserInitials
  }

  lemma {:induction false} FirstCharsBound(parts: seq<string>)
    ensures |FirstChars(parts)| <= |parts|
    ensures ' ' in FirstChars(parts) ==> exists k :: 0 <= k < |parts| && parts[k] != [] && parts[k][0] == ' '
  {
    if parts != [] {
      FirstCharsBound(parts[1..]);
      if ' ' in FirstChars(parts[1..]) {
        var k :| 0 <= k < |parts[1..]| && parts[1..][k] != [] && parts[1..][k][0] == ' ';
        assert parts[k + 1] == parts[1..][k];
      }
    }
  }

  /**
   * The avatar's `initials`: "U" with no user; otherwise the first code
   * point of each space-separated word of the name, in order, so at most one
   * per piece and never a space.
   */
  function Initials(user: Option<UserProfile>): (r: string)
    ensures user.None? ==> r == NoUserInitials
    ensures r == WordStarts(InitialsSource(user), true)
    ensures |r| <= |Split(InitialsSource(user), ' ')|
    ensures ' ' !in r
  {
    var parts := Split(InitialsSource(user), ' ');
    FirstCharsOfSplit(InitialsSource(user));
    FirstCharsBound(parts);
    SplitJoin(InitialsSource(user), ' ');
    FirstChars(parts)
  }

  /** Someone signed in without a display name shows "U", from the default name "User". */
  lemma NamelessUserInitials(a: AuthUser)
    requires !Truthy(a.displayName)
    ensures Initials(ToProfile(Some(a))) == NoUserInitials
  {
    assert InitialsSource(ToProfile(Some(a))) == DefaultName;
    WordStartsOfOneWord(DefaultName);
  }
}
