/**
 * The sign-in page: the login/register tab switch, what a submit does with
 * the server's answer, and the page's own light/dark button.
 */
module AuthForm {
  import opened ThemeContext

  datatype Tab = Login | Register

  /** A toast the page raises. */
  datatype Toast = Info(key: string) | Error(message: string)

  /** `toggleTab` as a transition: the new tab and the toast raised, if any. */
  function TabAfter(active: Tab, requested: Tab, registerEnabled: bool): (r: (Tab, seq<Toast>))
    ensures requested == active ==> r == (active, [])
    ensures requested != active && requested == Register && !registerEnabled ==> r == (active, [Info("registerClosed")])
    ensures r.0 == requested || r.0 == active
  {
    if requested == active then (active, [])
    else if requested == Register && !registerEnabled then (active, [Info("registerClosed")])
    else (requested, [])
  }

  /** Login is always reachable; register exactly when registration is open; a toast only for a refused switch. */
  lemma TabReachability(active: Tab, registerEnabled: bool)
    ensures TabAfter(active, Login, registerEnabled).0 == Login
    ensures TabAfter(active, Register, registerEnabled).0 == Register <==> registerEnabled || active == Register
    ensures TabAfter(active, Login, registerEnabled).1 == []
  {
  }

  /** What `login` and `registerUser` resolve to. */
  datatype AuthResult = Success | Failure(error: string)

  /** The page's state: the tab, the toasts shown so far, and how often `onSuccess` was called. */
  class Page {
    const registerEnabled: bool
    var activeTab: Tab
    var toasts: seq<Toast>
    var successCalls: nat

    /** The page opens on the login tab. */
    constructor (registerEnabled: bool)
      ensures this.registerEnabled == registerEnabled
      ensures activeTab == Login && toasts == [] && successCalls == 0
    {
      this.registerEnabled := registerEnabled;
      activeTab := Login;
      toasts := [];
      successCalls := 0;
    }

    method ToggleTab(tab: Tab)
      modifies this
      ensures activeTab == TabAfter(old(activeTab), tab, registerEnabled).0
      ensures toasts == old(toasts) + TabAfter(old(activeTab), tab, registerEnabled).1
      ensures successCalls == old(successCalls)
    {
      if tab == activeTab {
        return;
      }
      if tab == Register && !registerEnabled {
        toasts := toasts + [Info("registerClosed")];
        return;
      }
      activeTab := tab;
    }

    /** Either submit handler: success calls `onSuccess`, failure shows the error and calls nothing. */
    method Submitted(result: AuthResult)
      modifies this
      ensures result.Success? ==> successCalls == old(successCalls) + 1 && toasts == old(toasts)
      ensures result.Failure? ==> successCalls == old(successCalls) && toasts == old(toasts) + [Error(result.error)]
      ensures activeTab == old(activeTab)
    {
      if result.Success? {
        successCalls := successCalls + 1;
      } else {
        toasts := toasts + [Error(result.error)];
      }
    }
  }

  /** The page's own theme button picks the explicit theme opposite to the mode shown. */
  function FlipTheme(resolved: Mode): (t: Theme)
    ensures t == Light || t == Dark
    ensures forall systemDark: bool, hour: int :: Resolve(t, systemDark, hour) != resolved
  {
    if resolved == DarkMode then Light else Dark
  }
}
