/** The `user_presence` events: a client that folds them keeps up with the online set they announce. */
module PresenceEvents {

  import opened Presence

  /** The client's handler for one `user_presence` event. */
  function ApplyChange(view: set<UserId>, change: Change): set<UserId>
  {
    if change.online then view + {change.user} else view - {change.user}
  }

  function Fold(view: set<UserId>, changes: seq<Change>): set<UserId>
  {
    if |changes| == 0 then view
    else ApplyChange(Fold(view, changes[..|changes| - 1]), changes[|changes| - 1])
  }

  /** One event per user whose status differs, in any order. */
  predicate IsDelta(changes: seq<Change>, before: set<UserId>, after: set<UserId>)
  {
    (forall i, j :: 0 <= i < j < |changes| ==> changes[i].user != changes[j].user) &&
    (forall i :: 0 <= i < |changes| ==>
       (changes[i].online <==> changes[i].user in after) && (changes[i].online <==> changes[i].user !in before)) &&
    (forall u :: u in after - before ==> Change(u, true) in changes) &&
    (forall u :: u in before - after ==> Change(u, false) in changes)
  }

  /** No event repeats the status that the events before it have already announced. */
  predicate Effective(view: set<UserId>, changes: seq<Change>)
  {
    forall k :: 0 <= k < |changes| ==> (changes[k].online <==> changes[k].user !in Fold(view, changes[..k]))
  }

  lemma {:induction false} FoldAppend(view: set<UserId>, first: seq<Change>, second: seq<Change>)
    ensures Fold(view, first + second) == Fold(Fold(view, first), second)
  {
    if |second| == 0 {
      assert first + second == first;
    } else {
      var n := |second| - 1;
      FoldAppend(view, first, second[..n]);
      assert (first + second)[..|first + second| - 1] == first + second[..n];
    }
  }

  lemma EffectiveAppend(view: set<UserId>, first: seq<Change>, second: seq<Change>)
    requires Effective(view, first) && Effective(Fold(view, first), second)
    ensures Effective(view, first + second)
  {
    var both := first + second;
    forall k | 0 <= k < |both| ensures both[k].online <==> both[k].user !in Fold(view, both[..k]) {
      if k < |first| {
        assert both[..k] == first[..k];
      } else {
        assert both[..k] == first + second[..k - |first|];
        FoldAppend(view, first, second[..k - |first|]);
      }
    }
  }

  /** Only the users named so far have changed. */
  lemma {:induction false} FoldOfPrefix(changes: seq<Change>, before: set<UserId>, after: set<UserId>, k: nat,
                                        user: UserId)
    requires IsDelta(changes, before, after) && k <= |changes|
    ensures user in Fold(before, changes[..k]) <==>
            (if exists i :: 0 <= i < k && changes[i].user == user then user in after else user in before)
  {
    if k > 0 {
      FoldOfPrefix(changes, before, after, k - 1, user);
      assert changes[..k][..k - 1] == changes[..k - 1];
    }
  }

  /** The events of one recomputation bring a client's view from the old set to the new one. */
  lemma DeltaFolds(changes: seq<Change>, before: set<UserId>, after: set<UserId>)
    requires IsDelta(changes, before, after)
    ensures Fold(before, changes) == after && Effective(before, changes)
  {
    assert changes[..|changes|] == changes;
    forall u: UserId ensures u in Fold(before, changes) <==> u in after {
      FoldOfPrefix(changes, before, after, |changes|, u);
      if u in after - before {
        var i :| 0 <= i < |changes| && changes[i] == Change(u, true);
      } else if u in before - after {
        var i :| 0 <= i < |changes| && changes[i] == Change(u, false);
      }
    }
    forall k | 0 <= k < |changes| ensures changes[k].online <==> changes[k].user !in Fold(before, changes[..k]) {
      FoldOfPrefix(changes, before, after, k, changes[k].user);
    }
  }
}
