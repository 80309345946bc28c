/** The settings page (src/components/Settings.js): three state objects updated one named
    key at a time from the inputs, and the password form's check. */
module Settings {

  const CurrentPassword: string := "currentPassword"
  const NewPassword: string := "newPassword"
  const ConfirmNewPassword: string := "confirmNewPassword"

  const MsgMismatch: string := "New passwords do not match."
  const MsgFillAll: string := "Please fill in all password fields."
  const MsgUpdated: string := "Password updated successfully!"

  /** The toast a handler shows. */
  datatype Toast = Success(text: string) | Failure(text: string)

  /** The outcome of `handleUpdatePassword` on the typed values: the mismatch test comes
      first, then the test for an empty new or current password. */
  function PasswordCheck(current: string, proposed: string, confirm: string): (t: Toast)
    ensures t.Success? <==> proposed == confirm && proposed != "" && current != ""
    ensures proposed != confirm ==> t == Failure(MsgMismatch)
    ensures proposed == confirm && (proposed == "" || current == "") ==> t == Failure(MsgFillAll)
    ensures t.Success? ==> t.text == MsgUpdated
  {
    if proposed != confirm then Failure(MsgMismatch)
    else if proposed == "" || current == "" then Failure(MsgFillAll)
    else Success(MsgUpdated)
  }

  /** Because of the order, a mismatch is reported even when the current password is
      missing, and two empty new-password fields pass the mismatch test and are caught by
      the emptiness test. */
  lemma CheckOrder(current: string, proposed: string)
    ensures proposed != "" ==> PasswordCheck("", proposed, "") == Failure(MsgMismatch)
    ensures PasswordCheck(current, "", "") == Failure(MsgFillAll)
  {
  }

  const InitialPasswords: map<string, string> :=
    map[CurrentPassword := "", NewPassword := "", ConfirmNewPassword := ""]

  const InitialAccount: map<string, string> :=
    map["fullName" := "Harshith Kumar.M", "role" := "Full Stack Developer", "location" := "Dehradun, India"]

  const InitialNotifications: map<string, bool> :=
    map["emailOnNewTask" := true, "emailOnDeadline" := true, "pushOnMention" := false]

  class SettingsPage {
    var accountInfo: map<string, string>
    var passwords: map<string, string>
    var notifications: map<string, bool>

    /** The keys the page starts with stay present; inputs can only add keys. */
    ghost predicate Valid()
      reads this
    {
      InitialAccount.Keys <= accountInfo.Keys && InitialPasswords.Keys <= passwords.Keys
      && InitialNotifications.Keys <= notifications.Keys
    }

    constructor ()
      ensures Valid()
      ensures accountInfo == InitialAccount && passwords == InitialPasswords
      ensures notifications == InitialNotifications
    {
      accountInfo := InitialAccount;
      passwords := InitialPasswords;
      notifications := InitialNotifications;
    }

    /** `handleAccountChange`: `{ ...prevState, [name]: value }`. */
    method AccountChange(name: string, value: string)
      requires Valid()
      modifies this
      ensures Valid()
      ensures accountInfo == old(accountInfo)[name := value]
      ensures passwords == old(passwords) && notifications == old(notifications)
    {
      accountInfo := accountInfo[name := value];
    }

    /** `handlePasswordChange`. */
    method PasswordChange(name: string, value: string)
      requires Valid()
      modifies this
      ensures Valid()
      ensures passwords == old(passwords)[name := value]
      ensures accountInfo == old(accountInfo) && notifications == old(notifications)
    {
      passwords := passwords[name := value];
    }

    /** `handleNotificationChange`: the named flag takes the switch's value. */
    method NotificationChange(name: string, checked: bool)
      requires Valid()
      modifies this
      ensures Valid()
      ensures notifications == old(notifications)[name := checked]
      ensures accountInfo == old(accountInfo) && passwords == old(passwords)
    {
      notifications := notifications[name := checked];
    }

    /** `handleUpdatePassword`: a failed check leaves the form as it is; a passed one
        clears all three fields. */
    method UpdatePassword() returns (toast: Toast)
      requires Valid()
      modifies this
      ensures Valid()
      ensures toast == PasswordCheck(old(passwords)[CurrentPassword], old(passwords)[NewPassword],
                                     old(passwords)[ConfirmNewPassword])
      ensures toast.Failure? ==> passwords == old(passwords)
      ensures toast.Success? ==> passwords == InitialPasswords
      ensures accountInfo == old(accountInfo) && notifications == old(notifications)
    {
      toast := PasswordCheck(passwords[CurrentPassword], passwords[NewPassword], passwords[ConfirmNewPassword]);
      if toast.Success? {
        passwords := InitialPasswords;
      }
    }
  }
}
