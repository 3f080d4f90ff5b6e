/** The tab registry of the application shell (src/App.jsx): an ordered list of terminal tabs and
    the id of the active one, changed by adding a tab, closing a tab and selecting a tab. */
module App {
  import opened Js

  /** One terminal tab. `kind` is what the user typed at the type prompt (`null` if cancelled);
      only the exact string "local" selects local execution. */
  datatype Tab = Tab(id: int, name: string, kind: Option<string>)

  /** The ids of the tabs in `tabs`. */
  function Ids(tabs: seq<Tab>): set<int> {
    set t | t in tabs :: t.id
  }

  /** No two tabs share an id. */
  predicate UniqueIds(tabs: seq<Tab>) {
    forall i, j :: 0 <= i < j < |tabs| ==> tabs[i].id != tabs[j].id
  }

  /** `tabs.filter((t) => t.id !== id)`: keeps exactly the tabs whose id is not `id`, never
      lengthens the list. */
  function Removed(tabs: seq<Tab>, id: int): (r: seq<Tab>)
    ensures forall t :: t in r <==> t in tabs && t.id != id
    ensures |r| <= |tabs|
  {
    if tabs == [] then []
    else (if tabs[0].id != id then [tabs[0]] else []) + Removed(tabs[1..], id)
  }

  /** Filtering distributes over concatenation, so the kept tabs stay in their original order. */
  lemma {:induction false} RemovedConcat(a: seq<Tab>, b: seq<Tab>, id: int)
    ensures Removed(a + b, id) == Removed(a, id) + Removed(b, id)
  {
    if a == [] {
      assert a + b == b;
    } else {
      assert (a + b)[0] == a[0] && (a + b)[1..] == a[1..] + b;
      RemovedConcat(a[1..], b, id);
    }
  }

  /** Closing an id no tab carries leaves the list as it was. */
  lemma {:induction false} RemovedAbsent(tabs: seq<Tab>, id: int)
    requires id !in Ids(tabs)
    ensures Removed(tabs, id) == tabs
  {
    if tabs != [] {
      assert tabs[0] in tabs;
      assert Ids(tabs[1..]) <= Ids(tabs) by {
        forall x | x in Ids(tabs[1..]) ensures x in Ids(tabs) {
          var t :| t in tabs[1..] && t.id == x;
          assert t in tabs;
        }
      }
      RemovedAbsent(tabs[1..], id);
      assert tabs == [tabs[0]] + tabs[1..];
    }
  }

  /** A list with a head has unique ids exactly when its tail does and the head's id is not in it. */
  lemma UniqueCons(tabs: seq<Tab>)
    requires tabs != []
    ensures UniqueIds(tabs) <==> UniqueIds(tabs[1..]) && tabs[0].id !in Ids(tabs[1..])
    ensures Ids(tabs) == {tabs[0].id} + Ids(tabs[1..])
  {
  }

  /** Closing keeps ids unique. */
  lemma {:induction false} RemovedUnique(tabs: seq<Tab>, id: int)
    requires UniqueIds(tabs)
    ensures UniqueIds(Removed(tabs, id))
  {
    if tabs != [] {
      UniqueCons(tabs);
      RemovedUnique(tabs[1..], id);
      if tabs[0].id != id {
        var r := Removed(tabs, id);
        assert r[0] == tabs[0] && r[1..] == Removed(tabs[1..], id);
        UniqueCons(r);
      }
    }
  }

  /** With unique ids, closing a listed id removes exactly one tab, and closing an unlisted id none. */
  lemma {:induction false} RemovedLength(tabs: seq<Tab>, id: int)
    requires UniqueIds(tabs)
    ensures |Removed(tabs, id)| == if id in Ids(tabs) then |tabs| - 1 else |tabs|
  {
    if tabs != [] {
      UniqueCons(tabs);
      if tabs[0].id == id {
        RemovedAbsent(tabs[1..], id);
      } else {
        RemovedLength(tabs[1..], id);
      }
    } else {
      assert Ids(tabs) == {};
    }
  }

  /** The active id after closing `id`, read from the list as it was BEFORE the close: when the
      active tab is closed and there was more than one tab, the first tab of the old list becomes
      active, which is the closed tab itself when it was first. */
  function ActiveAfterClose(tabs: seq<Tab>, active: int, id: int): (r: int)
    ensures r != active ==> active == id && |tabs| > 1
    ensures active == id && |tabs| > 1 ==> r == tabs[0].id && r in Ids(tabs)
  {
    if active == id && |tabs| > 1 then tabs[0].id else active
  }

  /** The tabs for which a terminal is rendered: those whose id is the active id. */
  function Mounted(tabs: seq<Tab>, active: int): (r: seq<Tab>)
    ensures forall t :: t in r <==> t in tabs && t.id == active
    ensures r == [] <==> active !in Ids(tabs)
  {
    if tabs == [] then []
    else (if tabs[0].id == active then [tabs[0]] else []) + Mounted(tabs[1..], active)
  }

  /** Closing a tab that is not active keeps the active id, and a listed active tab stays listed
      and rendered. */
  lemma CloseInactive(tabs: seq<Tab>, active: int, id: int)
    requires active != id
    ensures ActiveAfterClose(tabs, active, id) == active
    ensures active in Ids(tabs) ==> active in Ids(Removed(tabs, id))
  {
  }

  /** Closing the active tab when it is not the first of several makes the first tab active,
      and that tab is still listed. */
  lemma CloseActiveMovesToFirst(tabs: seq<Tab>, id: int)
    requires |tabs| > 1 && tabs[0].id != id
    ensures ActiveAfterClose(tabs, id, id) == tabs[0].id
    ensures tabs[0].id in Ids(Removed(tabs, id))
  {
  }

  /** Closing the active tab when it is the first of several leaves the closed id active:
      no listed tab carries it and no terminal is rendered. */
  lemma CloseActiveFirstDangles(tabs: seq<Tab>, id: int)
    requires |tabs| > 1 && tabs[0].id == id
    ensures ActiveAfterClose(tabs, id, id) == id
    ensures id !in Ids(Removed(tabs, id))
    ensures Mounted(Removed(tabs, id), ActiveAfterClose(tabs, id, id)) == []
  {
  }

  /** Closing the only tab empties the list and keeps the closed id active, so nothing is rendered. */
  lemma CloseLastDangles(t: Tab)
    ensures Removed([t], t.id) == []
    ensures ActiveAfterClose([t], t.id, t.id) == t.id
    ensures Mounted(Removed([t], t.id), t.id) == []
  {
  }

  /** With unique ids, at most one terminal is rendered, and exactly one when the active id is listed. */
  lemma {:induction false} MountedAtMostOne(tabs: seq<Tab>, active: int)
    requires UniqueIds(tabs)
    ensures |Mounted(tabs, active)| <= 1
    ensures active in Ids(tabs) ==> |Mounted(tabs, active)| == 1
  {
    if tabs != [] {
      MountedAtMostOne(tabs[1..], active);
      UniqueCons(tabs);
    }
  }

  /** The state of the application shell: `terminals` and `activeTerminalId`. */
  class Registry {
    var terminals: seq<Tab>
    var activeId: int

    /** Ids are unique and every tab has a non-empty name; the active id is NOT required to be
        listed, since closing can leave it dangling. */
    ghost predicate Valid()
      reads this
    {
      UniqueIds(terminals) && forall i :: 0 <= i < |terminals| ==> terminals[i].name != ""
    }

    /** The initial state: one local tab "Terminal 1" with id 1, which is active. */
    constructor ()
      ensures Valid()
      ensures terminals == [Tab(1, "Terminal 1", Some("local"))] && activeId == 1
    {
      terminals := [Tab(1, "Terminal 1", Some("local"))];
      activeId := 1;
    }

    /** `handleAddTerminal`: `name` and `kind` are the answers to the two prompts and `newId` the
        timestamp id, which no listed tab carries. A null or empty name changes nothing; otherwise
        the new tab is appended and becomes active. */
    method AddTerminal(name: Option<string>, kind: Option<string>, newId: int)
      requires Valid()
      requires newId !in Ids(terminals)
      modifies this
      ensures Valid()
      ensures !Truthy(name) ==> terminals == old(terminals) && activeId == old(activeId)
      ensures Truthy(name) ==>
                terminals == old(terminals) + [Tab(newId, name.value, kind)] && activeId == newId
    {
      if !Truthy(name) {
        return;
      }
      var t := Tab(newId, name.value, kind);
      assert forall u :: u in terminals ==> u.id != newId;
      terminals := terminals + [t];
      activeId := newId;
    }

    /** `handleCloseTab`: drops every tab with id `id`, and moves the active id as
        `ActiveAfterClose` says, reading the list from before the close. */
    method CloseTab(id: int)
      requires Valid()
      modifies this
      ensures Valid()
      ensures terminals == Removed(old(terminals), id)
      ensures |terminals| == if id in Ids(old(terminals)) then |old(terminals)| - 1 else |old(terminals)|
      ensures activeId == ActiveAfterClose(old(terminals), old(activeId), id)
    {
      var before := terminals;
      RemovedUnique(before, id);
      RemovedLength(before, id);
      terminals := Removed(before, id);
      assert forall t :: t in terminals ==> t in before;
      if activeId == id && |before| > 1 {
        activeId := before[0].id;
      }
    }

    /** `setActiveTerminalId` as passed to the tab bar: stores `id` as given, with no check that a
        tab carries it. */
    method SetActiveTerminalId(id: int)
      modifies this`activeId
      ensures activeId == id
    {
      activeId := id;
    }

    /** The terminals the shell renders: the tabs whose id is the active id. */
    function Rendered(): (r: seq<Tab>)
      reads this
      requires Valid()
      ensures |r| <= 1
      ensures r == [] <==> activeId !in Ids(terminals)
      ensures forall t :: t in r ==> t in terminals && t.id == activeId
    {
      MountedAtMostOne(terminals, activeId);
      Mounted(terminals, activeId)
    }
  }
}
