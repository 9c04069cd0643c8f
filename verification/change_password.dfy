/**
 * The password change: the two local checks on the submitted pair, and the
 * order of the calls made to the authentication service and the profile
 * table once they pass.
 */
module ChangePassword {
  import opened Wrappers

  const MismatchError := "パスワードが一致しません"
  const TooShortError := "パスワードは6文字以上で設定してください"
  const NoUserError := "ユーザーが見つかりません"
  const ProfileError := "プロフィールの更新に失敗しました"
  const MinLength := 6

  /** The error returned by the local checks, if any; the mismatch check comes first. */
  function ValidatePassword(password: string, confirmPassword: string): (err: Option<string>)
    ensures password != confirmPassword <==> err == Some(MismatchError)
    ensures err == Some(TooShortError) <==> password == confirmPassword && |password| < MinLength
    ensures err.None? <==> password == confirmPassword && |password| >= MinLength
  {
    if password != confirmPassword then Some(MismatchError)
    else if |password| < MinLength then Some(TooShortError)
    else None
  }

  /** A call made to an outside service. */
  datatype Call = GetUser | UpdateAuthPassword(password: string) | ClearResetFlag(userId: string)

  datatype Reply = ErrorReply(message: string) | RedirectHome

  /**
   * `changePassword`: its reply and the calls it makes, in order, given who
   * is signed in and how the two updates fare (`authError`, `profileOk`).
   */
  function ChangePasswordFlow(password: string, confirmPassword: string, user: Option<string>,
                              authError: Option<string>, profileOk: bool): (r: (Reply, seq<Call>))
    ensures ValidatePassword(password, confirmPassword).Some? ==>
      r == (ErrorReply(ValidatePassword(password, confirmPassword).value), [])
    ensures ValidatePassword(password, confirmPassword).None? ==> |r.1| >= 1 && r.1[0] == GetUser
    ensures r.0 == RedirectHome <==>
      ValidatePassword(password, confirmPassword).None? && user.Some? && authError.None? && profileOk
    ensures r.0 == RedirectHome ==>
      r.1 == [GetUser, UpdateAuthPassword(password), ClearResetFlag(user.value)]
  {
    match ValidatePassword(password, confirmPassword)
    case Some(e) => (ErrorReply(e), [])
    case None =>
      if user.None? then (ErrorReply(NoUserError), [GetUser])
      else if authError.Some? then (ErrorReply(authError.value), [GetUser, UpdateAuthPassword(password)])
      else if !profileOk then
        (ErrorReply(ProfileError), [GetUser, UpdateAuthPassword(password), ClearResetFlag(user.value)])
      else (RedirectHome, [GetUser, UpdateAuthPassword(password), ClearResetFlag(user.value)])
  }

  /** The password given to the service is always one that passed the local checks. */
  lemma OnlyValidPasswordsReachTheService(password: string, confirmPassword: string, user: Option<string>,
                                          authError: Option<string>, profileOk: bool, i: nat)
    requires i < |ChangePasswordFlow(password, confirmPassword, user, authError, profileOk).1|
    requires ChangePasswordFlow(password, confirmPassword, user, authError, profileOk).1[i].UpdateAuthPassword?
    ensures password == confirmPassword && |password| >= MinLength
    ensures ChangePasswordFlow(password, confirmPassword, user, authError, profileOk).1[i].password == password
  {
  }
}
