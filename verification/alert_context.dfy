/**
 * The app-wide alert and confirm dialog. One slot holds the dialog shown;
 * a confirm carries the resolver of the promise its caller awaits. Promises
 * are numbered in the order they are created, and every call of a resolver
 * is recorded with the answer given.
 */
module AlertContext {
  import opened Wrappers

  datatype Kind = AlertKind | ConfirmKind

  /** The dialog shown: its kind, optional title, message, and for a confirm
      the number of the promise it will resolve. */
  datatype AlertState = AlertState(kind: Kind, title: Option<string>, message: string, resolver: Option<nat>)

  /** The dialog's title: the one given, else "Confirm" for a confirm and
      "Alert" otherwise. */
  function TitleOf(state: Option<AlertState>): (title: string)
    ensures state.Some? && state.value.title.Some? ==> title == state.value.title.value
    ensures (state.None? || state.value.title.None?) ==>
      (title == "Confirm" <==> state.Some? && state.value.kind == ConfirmKind)
    ensures (state.None? || state.value.title.None?) ==> (title == "Confirm" || title == "Alert")
  {
    if state.Some? && state.value.title.Some? then state.value.title.value
    else if state.Some? && state.value.kind == ConfirmKind then "Confirm"
    else "Alert"
  }

  /** The dialog's buttons. */
  datatype Button = Cancel | ConfirmButton | Ok

  function Buttons(state: Option<AlertState>): (buttons: seq<Button>)
    ensures state.Some? && state.value.kind == ConfirmKind ==> buttons == [Cancel, ConfirmButton]
    ensures !(state.Some? && state.value.kind == ConfirmKind) ==> buttons == [Ok]
  {
    if state.Some? && state.value.kind == ConfirmKind then [Cancel, ConfirmButton] else [Ok]
  }

  /** The promise a shown confirm will resolve, if any. */
  function PendingOf(state: Option<AlertState>): set<nat> {
    if state.Some? && state.value.resolver.Some? then {state.value.resolver.value} else {}
  }

  class AlertProvider {
    var state: Option<AlertState>
    /** Every resolver call so far: the promise and the answer. */
    var resolutions: seq<(nat, bool)>
    /** The number of promises created so far. */
    var promises: nat
    /** Promises whose confirm was replaced by an alert: nothing will
        resolve them. */
    ghost var abandoned: set<nat>

    ghost function Resolved(): set<nat>
      reads this
    {
      set r | r in resolutions :: r.0
    }

    ghost function Pending(): set<nat>
      reads this
    {
      PendingOf(state)
    }

    /** Exactly the confirms carry a resolver; every promise created is
        either resolved (once), abandoned, or awaiting the confirm shown. */
    ghost predicate Valid()
      reads this
    {
      && (state.Some? ==> (state.value.kind == ConfirmKind <==> state.value.resolver.Some?))
      && (forall i, j :: 0 <= i < j < |resolutions| ==> resolutions[i].0 != resolutions[j].0)
      && Resolved() !! abandoned && Resolved() !! Pending() && abandoned !! Pending()
      && (forall p: nat :: p in Resolved() || p in abandoned || p in Pending() <==> p < promises)
    }

    constructor()
      ensures Valid()
      ensures state == None && resolutions == [] && promises == 0 && abandoned == {}
    {
      state := None;
      resolutions := [];
      promises := 0;
      abandoned := {};
    }

    /** Calls the resolver of the confirm shown, if there is one. */
    method ResolvePending(answer: bool)
      requires Valid()
      modifies this
      ensures state == old(state) && promises == old(promises) && abandoned == old(abandoned)
      ensures old(state).Some? && old(state).value.resolver.Some? ==>
        resolutions == old(resolutions) + [(old(state).value.resolver.value, answer)]
      ensures !(old(state).Some? && old(state).value.resolver.Some?) ==> resolutions == old(resolutions)
      ensures Resolved() == old(Resolved()) + old(Pending())
    {
      if state.Some? && state.value.kind == ConfirmKind && state.value.resolver.Some? {
        var p := state.value.resolver.value;
        assert p !in Resolved();
        resolutions := resolutions + [(p, answer)];
        assert Resolved() == old(Resolved()) + {p} by {
          assert forall r :: r in resolutions <==> r in old(resolutions) || r == (p, answer);
        }
      }
    }

    /** `showAlert`: an alert replaces whatever is shown. A confirm it
        replaces is not answered: its promise is abandoned. */
    method ShowAlert(title: Option<string>, message: string)
      requires Valid()
      modifies this
      ensures Valid()
      ensures state == Some(AlertState(AlertKind, title, message, None))
      ensures resolutions == old(resolutions) && promises == old(promises)
      ensures abandoned == old(abandoned) + old(Pending())
    {
      abandoned := abandoned + Pending();
      state := Some(AlertState(AlertKind, title, message, None));
    }

    /** `showConfirm`: a confirm already shown is answered "no", then the new
        confirm is shown with a new promise, whose number is returned. */
    method ShowConfirm(title: Option<string>, message: string) returns (promise: nat)
      requires Valid()
      modifies this
      ensures Valid()
      ensures promise == old(promises) && promises == old(promises) + 1
      ensures state == Some(AlertState(ConfirmKind, title, message, Some(promise)))
      ensures old(state).Some? && old(state).value.kind == ConfirmKind ==>
        resolutions == old(resolutions) + [(old(state).value.resolver.value, false)]
      ensures !(old(state).Some? && old(state).value.kind == ConfirmKind) ==> resolutions == old(resolutions)
      ensures abandoned == old(abandoned)
    {
      ResolvePending(false);
      promise := promises;
      promises := promises + 1;
      state := Some(AlertState(ConfirmKind, title, message, Some(promise)));
    }

    /** `handleClose` (Cancel, OK, or dismissing the dialog): a confirm is
        answered "no", and nothing is shown any more. */
    method HandleClose()
      requires Valid()
      modifies this
      ensures Valid()
      ensures state == None && promises == old(promises) && abandoned == old(abandoned)
      ensures old(state).Some? && old(state).value.kind == ConfirmKind ==>
        resolutions == old(resolutions) + [(old(state).value.resolver.value, false)]
      ensures !(old(state).Some? && old(state).value.kind == ConfirmKind) ==> resolutions == old(resolutions)
    {
      ResolvePending(false);
      state := None;
    }

    /** `handleConfirm`: a confirm is answered "yes", and nothing is shown
        any more. */
    method HandleConfirm()
      requires Valid()
      modifies this
      ensures Valid()
      ensures state == None && promises == old(promises) && abandoned == old(abandoned)
      ensures old(state).Some? && old(state).value.kind == ConfirmKind ==>
        resolutions == old(resolutions) + [(old(state).value.resolver.value, true)]
      ensures !(old(state).Some? && old(state).value.kind == ConfirmKind) ==> resolutions == old(resolutions)
    {
      ResolvePending(true);
      state := None;
    }
  }

  /** A confirm answered at once: the caller's promise resolves with the
      answer given, and the dialog is gone. */
  method ConfirmAndAnswer(provider: AlertProvider, message: string, yes: bool) returns (promise: nat)
    requires provider.Valid()
    modifies provider
    ensures provider.Valid() && provider.state == None
    ensures |provider.resolutions| >= 1 && provider.resolutions[|provider.resolutions| - 1] == (promise, yes)
  {
    promise := provider.ShowConfirm(None, message);
    if yes {
      provider.HandleConfirm();
    } else {
      provider.HandleClose();
    }
  }
}
