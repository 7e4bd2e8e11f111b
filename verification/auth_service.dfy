/**
 * The simulated login backend: one pre-provisioned account, checked by
 * string equality after normalising both inputs. The artificial network
 * delay and the log line are not modelled.
 */
module AuthService {
  import opened Base
  import opened Text

  const ValidUser: string := "messi-love1"
  const ValidPhone: string := "+251975594607"
  const InvalidCredentials: string := "Invalid credentials. Please use the account provided to you."

  /** The phone number with every `\s` character removed. */
  function CleanPhone(phone: string): string {
    StripWhitespace(phone)
  }

  /** The username lower-cased, then stripped of its first `@` (wherever it is). */
  function CleanUser(username: string): string {
    RemoveFirst(Lower(username), '@')
  }

  /** `loginUser`: resolves to `true` for the one account, throws the fixed message otherwise. */
  function LoginUser(phone: string, username: string): (r: Result<bool>)
    ensures r.Ok? ==> r.value
    ensures r.Err? ==> r.message == InvalidCredentials
    ensures r.Ok? <==> CleanPhone(phone) == ValidPhone && CleanUser(username) == ValidUser
  {
    if CleanPhone(phone) != ValidPhone || CleanUser(username) != ValidUser then
      Err(InvalidCredentials)
    else
      Ok(true)
  }

  /** The usernames the check accepts, described without the normaliser. */
  predicate AcceptedUsername(username: string) {
    var t := Lower(username);
    t == ValidUser || exists i :: 0 <= i <= |ValidUser| && t == ValidUser[..i] + "@" + ValidUser[i..]
  }

  /**
   * Login succeeds exactly when the phone's non-whitespace characters spell
   * the valid number and the lower-cased username is the valid name, possibly
   * with a single `@` inserted at any position.
   */
  lemma LoginAcceptedIff(phone: string, username: string)
    ensures LoginUser(phone, username).Ok? <==>
      StripWhitespace(phone) == ValidPhone && AcceptedUsername(username)
  {
    assert '@' !in ValidUser;
    RemoveFirstYields(Lower(username), ValidUser, '@');
  }

  /** Whatever field is wrong, the failure carries the same message. */
  lemma MismatchIsUniform(phone: string, username: string)
    requires CleanPhone(phone) != ValidPhone || CleanUser(username) != ValidUser
    ensures LoginUser(phone, username) == Err(InvalidCredentials)
  {
  }

  predicate DialChars(w: string) {
    forall i :: 0 <= i < |w| ==> w[i] == '+' || '0' <= w[i] <= '9'
  }

  /** A group of dial characters, a space and the rest strip to the group and the stripped rest. */
  lemma StripGroup(w: string, rest: string)
    requires DialChars(w)
    ensures StripWhitespace(w + " " + rest) == w + StripWhitespace(rest)
  {
    assert NoWhitespace(w);
    StripAppend(w + " ", rest);
    StripAppend(w, " ");
  }

  /** Four dial groups joined by single spaces strip to the groups run together. */
  lemma StripGroups(a: string, b: string, c: string, d: string)
    requires DialChars(a) && DialChars(b) && DialChars(c) && DialChars(d)
    ensures StripWhitespace(a + " " + (b + " " + (c + " " + d))) == a + (b + (c + d))
  {
    assert NoWhitespace(d);
    StripGroup(c, d);
    StripGroup(b, c + " " + d);
    StripGroup(a, b + " " + (c + " " + d));
  }

  lemma SpacedPhoneGroups()
    ensures DialChars("+251") && DialChars("975") && DialChars("594") && DialChars("607")
    ensures "+251 975 594 607" == "+251" + " " + ("975" + " " + ("594" + " " + "607"))
    ensures ValidPhone == "+251" + ("975" + ("594" + "607"))
  {
  }

  /**
   * Spaces typed between the digit groups are ignored. The literal is
   * passed through the parameter `phone` so that the verifier does not
   * unfold the stripping function on the literal itself, which is slow.
   */
  lemma AcceptsSpacedPhone(phone: string)
    requires phone == "+251 975 594 607"
    ensures CleanPhone(phone) == ValidPhone
  {
    SpacedPhoneGroups();
    StripGroups("+251", "975", "594", "607");
  }

  /** Capitals in the username are folded, so the account may be typed in upper case. */
  lemma AcceptsCapitals()
    ensures CleanUser("MESSI-LOVE1") == ValidUser
  {
    assert Lower("MESSI-LOVE1") == ValidUser;
    RemoveFirstYields(Lower("MESSI-LOVE1"), ValidUser, '@');
  }

  /**
   * The account itself, typed with spaces in the phone number and in
   * capitals; the phone literal is a parameter for the same reason as above.
   */
  lemma AcceptsSpacedPhoneAndCapitals(phone: string)
    requires phone == "+251 975 594 607"
    ensures LoginUser(phone, "MESSI-LOVE1") == Ok(true)
  {
    AcceptsSpacedPhone(phone);
    AcceptsCapitals();
  }

  /** A single `@` is dropped wherever it sits, even in the middle of the name. */
  lemma AcceptsInnerAt()
    ensures CleanUser("messi@-love1") == ValidUser
    ensures CleanUser("@messi-love1") == ValidUser
  {
    assert Lower("messi@-love1") == "messi@-love1";
    assert Lower("@messi-love1") == "@messi-love1";
    assert "messi@-love1" == ValidUser[..5] + "@" + ValidUser[5..];
    assert "@messi-love1" == ValidUser[..0] + "@" + ValidUser[0..];
    RemoveFirstYields("messi@-love1", ValidUser, '@');
    RemoveFirstYields("@messi-love1", ValidUser, '@');
  }

  /** Only the first `@` is removed, so a doubled one is rejected. */
  lemma RejectsDoubleAt(phone: string)
    ensures LoginUser(phone, "@@messi-love1").Err?
  {
    assert Lower("@@messi-love1") == "@@messi-love1";
    assert CleanUser("@@messi-love1") == "@messi-love1";
  }

  /**
   * Whitespace in the username is not stripped: a username that starts with
   * a whitespace character, such as ` messi-love1`, is always rejected.
   */
  lemma RejectsLeadingWhitespace(phone: string, username: string)
    requires |username| > 0 && IsWhitespace(username[0])
    ensures CleanUser(username)[0] == username[0]
    ensures LoginUser(phone, username).Err?
  {
    var t := Lower(username);
    assert t[0] == username[0];
    if '@' in t {
      var i := IndexOf(t, '@');
      assert i > 0;
    }
  }
}
