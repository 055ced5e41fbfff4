/** The field rules of `RegisterForm`, `LoginForm` and `ResetPasswordForm`. */
module FormsAuth {
  import opened Text
  import opened Models
  import opened Validators

  datatype RegisterInput = RegisterInput(name: string, email: string, username: string, password: string, password2: string)

  predicate RegisterName(name: string)
  {
    FieldValid([DataRequired, Length(1, 30)], name)
  }

  /** `validate_email` looks the lower-cased input up. */
  predicate RegisterEmail(email: string, users: map<UserId, User>, isEmail: string -> bool)
  {
    FieldValid([DataRequired, Outcome(isEmail(email)), Outcome(!EmailInUse(users, Lower(email)))], email)
  }

  /** `validate_username` looks the input up exactly as typed. */
  predicate RegisterUsername(username: string, users: map<UserId, User>)
  {
    FieldValid([DataRequired, Length(1, 20), AlnumRegexp, Outcome(!UsernameInUse(users, username))], username)
  }

  predicate RegisterPassword(password: string, password2: string)
  {
    FieldValid([DataRequired, Length(8, 128), EqualTo(password2)], password)
  }

  predicate RegisterPassword2(password2: string)
  {
    FieldValid([DataRequired, Length(8, 128)], password2)
  }

  /** `RegisterForm.validate()`: every field valid. */
  predicate RegisterValid(f: RegisterInput, users: map<UserId, User>, isEmail: string -> bool)
  {
    && RegisterName(f.name)
    && RegisterEmail(f.email, users, isEmail)
    && RegisterUsername(f.username, users)
    && RegisterPassword(f.password, f.password2)
    && RegisterPassword2(f.password2)
  }

  /** A name is 1 to 30 characters, not all whitespace. */
  lemma RegisterNameRule(name: string)
    ensures RegisterName(name) <==> 1 <= |name| <= 30 && !Blank(name)
  {
    Chain2(DataRequired, Length(1, 30), name);
  }

  /** A username is 1 to 20 characters that the alphanumeric regular
      expression matches, other than a lone newline, and no user has exactly
      that username. */
  lemma RegisterUsernameRule(username: string, users: map<UserId, User>)
    ensures RegisterUsername(username, users) <==>
      1 <= |username| <= 20 && AlnumRegexpMatch(username) && username != "\n" && !UsernameInUse(users, username)
  {
    Chain4(DataRequired, Length(1, 20), AlnumRegexp, Outcome(!UsernameInUse(users, username)), username);
    if AlnumRegexpMatch(username) && 1 <= |username| && username != "\n" {
      assert !IsSpace(username[0]);
    }
  }

  /** An accepted username is only letters and digits, except that a single
      trailing newline also gets through. */
  lemma RegisterUsernameShape(username: string, users: map<UserId, User>)
    requires RegisterUsername(username, users)
    ensures AllAlnum(username) || (username[|username| - 1] == '\n' && AllAlnum(username[..|username| - 1]))
  {
    RegisterUsernameRule(username, users);
  }

  /** The passwords are 8 to 128 characters each, not all whitespace, and equal. */
  lemma RegisterPasswordRule(password: string, password2: string)
    ensures RegisterPassword(password, password2) && RegisterPassword2(password2) <==>
      8 <= |password| <= 128 && !Blank(password) && password == password2
  {
    Chain3(DataRequired, Length(8, 128), EqualTo(password2), password);
    Chain2(DataRequired, Length(8, 128), password2);
  }

  /** Emails are compared lower-cased and usernames as typed: an email that
      differs from a registered one only in case is refused, a username that
      differs only in case is not. */
  lemma UniquenessCaseRule(users: map<UserId, User>, isEmail: string -> bool, id: UserId)
    requires id in users && users[id].email == "b@x" && users[id].username == "b"
    requires !UsernameInUse(users, "B")
    ensures !RegisterEmail("B@x", users, isEmail)
    ensures RegisterUsername("B", users)
  {
    assert Lower("B@x") == "b@x" by {
      assert Lower("B@x") == [LowerChar('B')] + Lower("@x");
      assert Lower("@x") == [LowerChar('@')] + Lower("x");
    }
    assert EmailInUse(users, Lower("B@x"));
    RegisterEmailRule("B@x", users, isEmail);
    assert AllAlnum("B") && !IsSpace("B"[0]);
    RegisterUsernameRule("B", users);
  }

  /** `validate_email` lower-cases the input and then looks it up exactly:
      an address whose lower-cased form is stored is refused. */
  lemma EmailLookupLowerCased(email: string, users: map<UserId, User>, isEmail: string -> bool, id: UserId)
    requires id in users && users[id].email == Lower(email)
    ensures !RegisterEmail(email, users, isEmail)
  {
    RegisterEmailRule(email, users, isEmail);
  }

  /** Only the input is lower-cased, so a stored address that is not in
      lower case does not block the same address typed again. */
  lemma StoredUpperCaseDoesNotBlock(users: map<UserId, User>, isEmail: string -> bool)
    requires forall id :: id in users ==> users[id].email == "B@x"
    requires isEmail("B@x")
    ensures RegisterEmail("B@x", users, isEmail)
  {
    assert Lower("B@x") == "b@x" by {
      assert Lower("B@x") == [LowerChar('B')] + Lower("@x");
      assert Lower("@x") == [LowerChar('@')] + Lower("x");
    }
    assert !EmailInUse(users, Lower("B@x"));
    assert !Blank("B@x") by { assert !IsSpace("B@x"[0]); }
    RegisterEmailRule("B@x", users, isEmail);
  }

  /** An accepted e-mail address is not registered in lower case. */
  lemma RegisterEmailRule(email: string, users: map<UserId, User>, isEmail: string -> bool)
    ensures RegisterEmail(email, users, isEmail) <==> !Blank(email) && isEmail(email) && !EmailInUse(users, Lower(email))
  {
    Chain3(DataRequired, Outcome(isEmail(email)), Outcome(!EmailInUse(users, Lower(email))), email);
  }

  datatype LoginInput = LoginInput(email: string, password: string, rememberMe: bool)

  predicate LoginValid(f: LoginInput, isEmail: string -> bool)
  {
    && FieldValid([DataRequired, Length(1, 254), Outcome(isEmail(f.email))], f.email)
    && FieldValid([DataRequired, Length(8, 128)], f.password)
  }

  /** Login needs an e-mail address of 1 to 254 characters and a password of
      8 to 128, neither all whitespace. */
  lemma LoginRule(f: LoginInput, isEmail: string -> bool)
    ensures LoginValid(f, isEmail) <==>
      && 1 <= |f.email| <= 254 && !Blank(f.email) && isEmail(f.email)
      && 8 <= |f.password| <= 128 && !Blank(f.password)
  {
    Chain3(DataRequired, Length(1, 254), Outcome(isEmail(f.email)), f.email);
    Chain2(DataRequired, Length(8, 128), f.password);
  }

  datatype ResetPasswordInput = ResetPasswordInput(email: string, password: string, password2: string)

  predicate ResetPasswordValid(f: ResetPasswordInput, isEmail: string -> bool)
  {
    && FieldValid([DataRequired, Length(1, 254), Outcome(isEmail(f.email))], f.email)
    && FieldValid([DataRequired, Length(8, 128), EqualTo(f.password2)], f.password)
    && FieldValid([DataRequired], f.password2)
  }

  /** The new password is 8 to 128 characters, not all whitespace, and
      repeated exactly; the confirmation has no rule of its own beyond that. */
  lemma ResetPasswordRule(f: ResetPasswordInput, isEmail: string -> bool)
    ensures ResetPasswordValid(f, isEmail) <==>
      && 1 <= |f.email| <= 254 && !Blank(f.email) && isEmail(f.email)
      && 8 <= |f.password| <= 128 && !Blank(f.password) && f.password == f.password2
  {
    Chain3(DataRequired, Length(1, 254), Outcome(isEmail(f.email)), f.email);
    Chain3(DataRequired, Length(8, 128), EqualTo(f.password2), f.password);
    Chain1(DataRequired, f.password2);
  }
}
