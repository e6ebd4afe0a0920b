/** The account page's password change and account deletion (app/user/page.tsx). The
    handlers update the page's state fields one after another and stop at the first
    failed check; the database, bcrypt and the auth service are outside the model and
    reach it only as the outcome each handler is given. */
module UserAccount {
  import opened Wrappers
  import opened Text

  const PhraseToDelete := "注销我的用户"
  const WrongUsername := "用户名输入不正确"
  const WrongPhrase := "确认短语输入不正确"

  /** JavaScript's `a || b` on optional strings: undefined and "" are falsy. */
  function OrElse(a: Option<string>, b: Option<string>): (r: Option<string>)
    ensures a.Some? && a.value != "" ==> r == a
    ensures !(a.Some? && a.value != "") ==> r == b
  {
    if a.Some? && a.value != "" then a else b
  }

  /** The part of an email before its first '@'. */
  function EmailLocalPart(email: Option<string>): (r: Option<string>)
    ensures email.None? <==> r.None?
    ensures r.Some? ==> '@' !in r.value && StartsWith(email.value, r.value)
    ensures r.Some? && '@' in email.value ==> email.value[|r.value|] == '@'
    ensures r.Some? && '@' !in email.value ==> r.value == email.value
  {
    match email
    case None => None
    case Some(e) =>
      var parts := Split(e, '@');
      SplitFirst(e, '@');
      Some(parts[0])
  }

  /** The first piece of a split is where the text starts, up to the first separator. */
  lemma SplitFirst(s: string, sep: char)
    ensures StartsWith(s, Split(s, sep)[0])
    ensures sep in s ==> s[|Split(s, sep)[0]|] == sep
    ensures sep !in s ==> Split(s, sep) == [s]
  {
    var parts := Split(s, sep);
    if |parts| == 1 {
      assert Join(parts, sep) == parts[0];
    } else {
      assert Join(parts, sep) == parts[0] + [sep] + Join(parts[1..], sep);
      assert (parts[0] + [sep] + Join(parts[1..], sep))[|parts[0]|] == sep;
      assert s[..|parts[0]|] == parts[0];
    }
  }

  /** The expected username: the profile name, else the metadata username, else the
      email's part before '@', each skipped when missing or empty. */
  function CurrentUsername(profileName: Option<string>, metadataUsername: Option<string>, email: Option<string>): Option<string>
  {
    OrElse(profileName, OrElse(metadataUsername, EmailLocalPart(email)))
  }

  /** The typed name equals the expected one; never when that one is undefined. */
  predicate UsernameMatches(confirm: string, current: Option<string>)
  {
    current == Some(confirm)
  }

  /** The first failed check of handleChangePassword, with its message. */
  function PasswordProblem(current: string, newPwd: string, confirm: string): (r: Option<string>)
  {
    if Trim(current) == "" then Some("请输入当前密码")
    else if Trim(newPwd) == "" then Some("请输入新密码")
    else if Utf16Length(newPwd) < 6 then Some("新密码长度至少6位")
    else if newPwd != confirm then Some("两次输入的新密码不一致")
    else if current == newPwd then Some("新密码不能与当前密码相同")
    else None
  }

  /** A change is attempted exactly when both passwords are non-blank, the new one has
      at least six UTF-16 code units (JavaScript's `length`, counted before trimming), it
      is confirmed, and it differs
      from the current one; a blank current password is reported before anything about
      the new one, and a short new password before a mismatch. */
  lemma PasswordChecks(current: string, newPwd: string, confirm: string)
    ensures PasswordProblem(current, newPwd, confirm).None? <==>
      !AllSpace(current) && !AllSpace(newPwd) && Utf16Length(newPwd) >= 6 && newPwd == confirm && current != newPwd
    ensures AllSpace(current) ==> PasswordProblem(current, newPwd, confirm) == Some("请输入当前密码")
    ensures !AllSpace(current) && AllSpace(newPwd) ==> PasswordProblem(current, newPwd, confirm) == Some("请输入新密码")
    ensures !AllSpace(current) && !AllSpace(newPwd) && Utf16Length(newPwd) < 6 ==>
      PasswordProblem(current, newPwd, confirm) == Some("新密码长度至少6位")
  {
    TrimEmptyIff(current);
    TrimEmptyIff(newPwd);
  }

  /** A new password of six spaces passes the length check but not the blank check,
      which comes first. */
  lemma BlankLongPasswordRefused(current: string)
    requires !AllSpace(current)
    ensures PasswordProblem(current, "      ", "      ") == Some("请输入新密码")
  {
    TrimEmptyIff(current);
    TrimEmptyIff("      ");
  }

  /** Three characters beyond U+FFFF make six code units, so such a password passes the
      length check: "😀😀😀" is accepted as a new password. */
  lemma ThreeEmojiPasswordAccepted(current: string)
    requires !AllSpace(current) && current != "\U{1F600}\U{1F600}\U{1F600}"
    ensures Utf16Length("\U{1F600}\U{1F600}\U{1F600}") == 6
    ensures PasswordProblem(current, "\U{1F600}\U{1F600}\U{1F600}", "\U{1F600}\U{1F600}\U{1F600}").None?
  {
    var e := "\U{1F600}\U{1F600}\U{1F600}";
    assert e[1..][1..][1..] == [];
    TrimEmptyIff(current);
    TrimEmptyIff(e);
    assert !AllSpace(e) by { assert !IsSpace(e[0]); }
  }

  /** What the server part of the password change reports: no stored profile (nothing
      happens), success, or an error with its message. */
  datatype PasswordOutcome = NoStoredProfile | Changed | Failed(message: string)

  /** The error's message, or 未知错误 when it is empty. */
  function ErrorText(message: string): (r: string)
    ensures r != ""
  {
    if message != "" then message else "未知错误"
  }

  /** The confirmation checks of handleDeleteUser, in order. */
  function DeleteProblem(confirmUsername: string, confirmPhrase: string, current: Option<string>): (r: Option<string>)
    ensures r.None? <==> UsernameMatches(confirmUsername, current) && confirmPhrase == PhraseToDelete
  {
    if !UsernameMatches(confirmUsername, current) then Some(WrongUsername)
    else if confirmPhrase != PhraseToDelete then Some(WrongPhrase)
    else None
  }

  /** The step after handleNextStep. */
  function NextStepOf(step: int, matches: bool): (r: int)
    ensures 1 <= step <= 3 ==> 1 <= r <= 3
    ensures r >= step
  {
    if step == 1 then 2 else if step == 2 && matches then 3 else step
  }

  /** The step after handlePrevStep. */
  function PrevStepOf(step: int): (r: int)
    ensures 1 <= step <= 3 ==> 1 <= r <= 3
    ensures r <= step
  {
    if step > 1 then step - 1 else step
  }

  /** A run of next/previous presses: true for next, false for previous. */
  function Presses(step: int, matches: bool, keys: seq<bool>): int
  {
    if keys == [] then step
    else
      var before := Presses(step, matches, keys[..|keys| - 1]);
      if keys[|keys| - 1] then NextStepOf(before, matches) else PrevStepOf(before)
  }

  /** Any run of presses from a valid step stays on steps 1 to 3, and the third step is
      reached only when the typed username matches. */
  lemma {:induction false} PressesStayInRange(step: int, matches: bool, keys: seq<bool>)
    requires 1 <= step <= 2
    ensures 1 <= Presses(step, matches, keys) <= 3
    ensures !matches ==> Presses(step, matches, keys) <= 2
    decreases |keys|
  {
    if keys != [] {
      PressesStayInRange(step, matches, keys[..|keys| - 1]);
    }
  }

  /** From the first step, two presses of next reach the third step exactly when the
      username matches. */
  lemma TwoNextsReachFinalStep(matches: bool)
    ensures Presses(1, matches, [true, true]) == 3 <==> matches
  {
    assert [true, true][..1] == [true];
    assert [true][..0] == [];
    assert Presses(1, matches, [true]) == 2;
  }

  class UserPage {
    /** The signed-in user's profile name, metadata username and email. */
    const profileName: Option<string>
    const metadataUsername: Option<string>
    const email: Option<string>

    var deleteStep: int
    var confirmUsername: string
    var confirmPhrase: string
    var deleteError: string
    var showDeleteConfirm: bool
    var isDeleting: bool

    var showChangePassword: bool
    var currentPassword: string
    var newPassword: string
    var confirmPassword: string
    var isChangingPassword: bool
    var changePasswordError: string
    var changePasswordSuccess: string

    /** The page's initial state. */
    constructor (profileName: Option<string>, metadataUsername: Option<string>, email: Option<string>)
      ensures this.profileName == profileName && this.metadataUsername == metadataUsername && this.email == email
      ensures deleteStep == 1 && confirmUsername == "" && confirmPhrase == "" && deleteError == ""
      ensures !showDeleteConfirm && !isDeleting
      ensures !showChangePassword && currentPassword == "" && newPassword == "" && confirmPassword == ""
      ensures !isChangingPassword && changePasswordError == "" && changePasswordSuccess == ""
      ensures Valid()
    {
      this.profileName := profileName;
      this.metadataUsername := metadataUsername;
      this.email := email;
      deleteStep := 1;
      confirmUsername := "";
      confirmPhrase := "";
      deleteError := "";
      showDeleteConfirm := false;
      isDeleting := false;
      showChangePassword := false;
      currentPassword := "";
      newPassword := "";
      confirmPassword := "";
      isChangingPassword := false;
      changePasswordError := "";
      changePasswordSuccess := "";
    }

    /** The deletion dialog shows one of its three steps. */
    predicate Valid()
      reads this
    {
      1 <= deleteStep <= 3
    }

    function Username(): Option<string>
    {
      CurrentUsername(profileName, metadataUsername, email)
    }

    /** handleNextStep: 1 goes to 2; 2 goes to 3 only when the typed username matches,
        otherwise it reports the mismatch; 3 stays. */
    method NextStep()
      requires Valid()
      modifies this`deleteStep, this`deleteError
      ensures Valid()
      ensures deleteStep == NextStepOf(old(deleteStep), UsernameMatches(confirmUsername, Username()))
      ensures deleteError == if old(deleteStep) == 2 && !UsernameMatches(confirmUsername, Username()) then WrongUsername else ""
    {
      deleteError := "";
      if deleteStep == 1 {
        deleteStep := 2;
      } else if deleteStep == 2 {
        var currentUsername := Username();
        if !UsernameMatches(confirmUsername, currentUsername) {
          deleteError := WrongUsername;
          return;
        }
        deleteStep := 3;
      }
    }

    /** handlePrevStep: back one step, never below the first. */
    method PrevStep()
      requires Valid()
      modifies this`deleteStep, this`deleteError
      ensures Valid()
      ensures deleteStep == PrevStepOf(old(deleteStep)) && deleteError == ""
    {
      deleteError := "";
      if deleteStep > 1 {
        deleteStep := deleteStep - 1;
      }
    }

    /** handleCancelDelete: close the dialog and forget what was typed. */
    method CancelDelete()
      modifies this`showDeleteConfirm, this`deleteStep, this`confirmUsername, this`confirmPhrase, this`deleteError
      ensures Valid()
      ensures !showDeleteConfirm && deleteStep == 1 && confirmUsername == "" && confirmPhrase == "" && deleteError == ""
    {
      showDeleteConfirm := false;
      deleteStep := 1;
      confirmUsername := "";
      confirmPhrase := "";
      deleteError := "";
    }

    /** handleDeleteUser: the account is deleted only after both confirmations pass;
        `serverError` is the error the deletion reports, if any. `requested` says the
        profile deletion was sent, `signedOut` that the user was signed out and sent to
        the login page. */
    method DeleteUser(serverError: Option<string>) returns (requested: bool, signedOut: bool)
      modifies this`isDeleting, this`deleteError
      ensures requested <==> DeleteProblem(confirmUsername, confirmPhrase, Username()).None?
      ensures signedOut <==> requested && serverError.None?
      ensures !isDeleting
      ensures DeleteProblem(confirmUsername, confirmPhrase, Username()).Some? ==>
        deleteError == "删除用户失败：" + DeleteProblem(confirmUsername, confirmPhrase, Username()).value
      ensures requested && serverError.Some? ==> deleteError == "删除用户失败：" + ErrorText(serverError.value)
      ensures signedOut ==> deleteError == ""
    {
      isDeleting := true;
      deleteError := "";
      requested, signedOut := false, false;
      var currentUsername := Username();
      var failure: Option<string> := None;
      if !UsernameMatches(confirmUsername, currentUsername) {
        failure := Some(WrongUsername);
      } else if confirmPhrase != PhraseToDelete {
        failure := Some(WrongPhrase);
      } else {
        requested := true;
        if serverError.Some? {
          failure := Some(ErrorText(serverError.value));
        } else {
          signedOut := true;
        }
      }
      if failure.Some? {
        deleteError := "删除用户失败：" + failure.value;
      }
      isDeleting := false;
    }

    /** handleChangePassword: report the first failed check and stop, leaving the busy
        flag alone; otherwise set it, apply what the server part reports, and clear it. */
    method ChangePassword(outcome: PasswordOutcome)
      modifies this`changePasswordError, this`changePasswordSuccess, this`isChangingPassword,
        this`currentPassword, this`newPassword, this`confirmPassword
      ensures var problem := PasswordProblem(old(currentPassword), old(newPassword), old(confirmPassword));
        if problem.Some? then
          changePasswordError == problem.value && changePasswordSuccess == "" &&
          isChangingPassword == old(isChangingPassword) &&
          currentPassword == old(currentPassword) && newPassword == old(newPassword) &&
          confirmPassword == old(confirmPassword)
        else
          !isChangingPassword &&
          match outcome
          case NoStoredProfile =>
            changePasswordError == "" && changePasswordSuccess == "" &&
            currentPassword == old(currentPassword) && newPassword == old(newPassword) &&
            confirmPassword == old(confirmPassword)
          case Changed =>
            changePasswordError == "" && changePasswordSuccess == "密码修改成功！" &&
            currentPassword == "" && newPassword == "" && confirmPassword == ""
          case Failed(message) =>
            changePasswordError == "修改密码失败：" + ErrorText(message) && changePasswordSuccess == "" &&
            currentPassword == old(currentPassword) && newPassword == old(newPassword) &&
            confirmPassword == old(confirmPassword)
    {
      changePasswordError := "";
      changePasswordSuccess := "";
      if Trim(currentPassword) == "" {
        changePasswordError := "请输入当前密码";
        return;
      }
      if Trim(newPassword) == "" {
        changePasswordError := "请输入新密码";
        return;
      }
      if Utf16Length(newPassword) < 6 {
        changePasswordError := "新密码长度至少6位";
        return;
      }
      if newPassword != confirmPassword {
        changePasswordError := "两次输入的新密码不一致";
        return;
      }
      if currentPassword == newPassword {
        changePasswordError := "新密码不能与当前密码相同";
        return;
      }
      isChangingPassword := true;
      match outcome {
        case NoStoredProfile =>
        case Changed =>
          changePasswordSuccess := "密码修改成功！";
          currentPassword := "";
          newPassword := "";
          confirmPassword := "";
        case Failed(message) =>
          changePasswordError := "修改密码失败：" + ErrorText(message);
      }
      isChangingPassword := false;
    }

    /** handleCancelChangePassword. */
    method CancelChangePassword()
      modifies this`showChangePassword, this`currentPassword, this`newPassword, this`confirmPassword,
        this`changePasswordError, this`changePasswordSuccess
      ensures !showChangePassword && currentPassword == "" && newPassword == "" && confirmPassword == ""
      ensures changePasswordError == "" && changePasswordSuccess == ""
    {
      showChangePassword := false;
      currentPassword := "";
      newPassword := "";
      confirmPassword := "";
      changePasswordError := "";
      changePasswordSuccess := "";
    }
  }

  /** The username fallback: the profile name when it is non-empty, else the metadata
      username when non-empty, else the email's part before '@'; with none of them the
      name is undefined and no typed username matches. */
  lemma UsernameFallback(profileName: Option<string>, metadataUsername: Option<string>, email: Option<string>)
    ensures profileName.Some? && profileName.value != "" ==>
      CurrentUsername(profileName, metadataUsername, email) == profileName
    ensures !(profileName.Some? && profileName.value != "") && metadataUsername.Some? && metadataUsername.value != "" ==>
      CurrentUsername(profileName, metadataUsername, email) == metadataUsername
    ensures !(profileName.Some? && profileName.value != "") && !(metadataUsername.Some? && metadataUsername.value != "") ==>
      CurrentUsername(profileName, metadataUsername, email) == EmailLocalPart(email)
    ensures profileName.None? && metadataUsername.None? && email.None? ==>
      forall typed :: !UsernameMatches(typed, CurrentUsername(profileName, metadataUsername, email))
  {
  }

  /** The first piece of a split at a separator the text before it does not hold. */
  lemma {:induction false} SplitAtFirst(user: string, sep: char, rest: string)
    requires sep !in user
    ensures Split(user + [sep] + rest, sep)[0] == user
    decreases |user|
  {
    var s := user + [sep] + rest;
    if user == [] {
      assert s[0] == sep;
    } else {
      assert s[0] == user[0];
      assert s[1..] == user[1..] + [sep] + rest;
      SplitAtFirst(user[1..], sep, rest);
      assert [user[0]] + user[1..] == user;
    }
  }

  /** For a user known only by email, the expected username is the email up to its
      '@' ("ada" for "ada@example.org"); an email starting with '@' makes it empty. */
  lemma EmailUsername(user: string, domain: string)
    requires '@' !in user
    ensures CurrentUsername(None, Some(""), Some(user + "@" + domain)) == Some(user)
    ensures CurrentUsername(None, None, Some(user + "@" + domain)) == Some(user)
  {
    SplitAtFirst(user, '@', domain);
  }
}
