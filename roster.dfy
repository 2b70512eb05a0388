/** The roster loader `get_all_groups` (client_win.py:30-36): one pass over
    the account's dialogs, keeping the entity of every dialog that is a group. */
module Roster {

  /** A chat entity as the broadcaster uses it: the id it addresses sends to
      and the title it reports in log lines. */
  datatype Entity = Entity(id: int, title: string)

  /** One dialog of the account, as the dialog iterator yields it. */
  datatype Dialog = Dialog(isGroup: bool, entity: Entity)

  /** The roster the loader builds from `dialogs`: the group entities, in
      iteration order. */
  function Groups(dialogs: seq<Dialog>): (groups: seq<Entity>)
    ensures |groups| <= |dialogs|
  {
    if dialogs == [] then []
    else
      var last := dialogs[|dialogs| - 1];
      Groups(dialogs[..|dialogs| - 1]) + (if last.isGroup then [last.entity] else [])
  }

  /** The positions of the group dialogs in `dialogs`, ascending: every group
      dialog is listed once and nothing else is. */
  function GroupPositions(dialogs: seq<Dialog>): (ps: seq<nat>)
    ensures forall k :: 0 <= k < |ps| ==> ps[k] < |dialogs| && dialogs[ps[k]].isGroup
    ensures forall k, l :: 0 <= k < l < |ps| ==> ps[k] < ps[l]
    ensures forall i :: 0 <= i < |dialogs| && dialogs[i].isGroup ==> i in ps
  {
    if dialogs == [] then []
    else
      var n := |dialogs| - 1;
      var init := dialogs[..n];
      var ps := GroupPositions(init);
      assert forall k :: 0 <= k < |ps| ==> dialogs[ps[k]] == init[ps[k]];
      assert forall i :: 0 <= i < n ==> dialogs[i] == init[i];
      ps + (if dialogs[n].isGroup then [n] else [])
  }

  /** The roster is exactly the selection of the group dialogs: its k-th
      entity is the entity of the k-th group dialog, so nothing is added,
      dropped, duplicated or reordered. */
  lemma {:induction false} GroupsAreSelection(dialogs: seq<Dialog>)
    ensures |Groups(dialogs)| == |GroupPositions(dialogs)|
    ensures forall k :: 0 <= k < |Groups(dialogs)| ==>
              Groups(dialogs)[k] == dialogs[GroupPositions(dialogs)[k]].entity
  {
    if dialogs != [] {
      var n := |dialogs| - 1;
      var init := dialogs[..n];
      GroupsAreSelection(init);
      var gs, ps := Groups(init), GroupPositions(init);
      forall k | 0 <= k < |Groups(dialogs)|
        ensures Groups(dialogs)[k] == dialogs[GroupPositions(dialogs)[k]].entity
      {
        if k < |gs| {
          assert Groups(dialogs)[k] == gs[k];
          assert GroupPositions(dialogs)[k] == ps[k];
          assert dialogs[ps[k]] == init[ps[k]];
        }
      }
    }
  }

  /** The roster of a concatenation is the concatenation of the rosters: the
      loader keeps the iterator's order. */
  lemma {:induction false} GroupsAppend(a: seq<Dialog>, b: seq<Dialog>)
    ensures Groups(a + b) == Groups(a) + Groups(b)
  {
    if b != [] {
      var n := |b| - 1;
      assert (a + b)[..|a + b| - 1] == a + b[..n];
      GroupsAppend(a, b[..n]);
    } else {
      assert a + b == a;
    }
  }

  /** `get_all_groups`: appends to `groups` the entity of each group dialog
      the iterator yields. */
  method GetAllGroups(dialogs: seq<Dialog>) returns (groups: seq<Entity>)
    ensures groups == Groups(dialogs)
  {
    groups := [];
    for i := 0 to |dialogs|
      invariant groups == Groups(dialogs[..i])
    {
      assert dialogs[..i + 1][..i] == dialogs[..i];
      if dialogs[i].isGroup {
        groups := groups + [dialogs[i].entity];
      }
    }
    assert dialogs[..|dialogs|] == dialogs;
  }
}
