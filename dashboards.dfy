/** The dashboard store: a map from dashboard id to dashboard, kept in
    insertion order, with a permission-based listing, sharing, cloning and
    shallow merges. The clock is a parameter; widgets and filters are
    carried as opaque values. */
module Dashboards {
  import opened Common
  import opened Text
  import opened Values
  import opened OrderedMaps

  datatype Permissions = Permissions(owner: string, editors: seq<string>, viewers: seq<string>, public: bool)

  /** What a caller hands to `createDashboard`: everything but the id and
      the two timestamps. */
  datatype Draft = Draft(
    name: string,
    description: Option<string>,
    widgets: seq<Value>,
    layout: string,
    theme: string,
    filters: seq<Value>,
    permissions: Permissions)

  datatype Dashboard = Dashboard(
    id: string,
    name: string,
    description: Option<string>,
    widgets: seq<Value>,
    layout: string,
    theme: string,
    filters: seq<Value>,
    permissions: Permissions,
    createdAt: int,
    updatedAt: int)

  /** A `Partial<CustomDashboard>`: the fields the update names. */
  datatype Changes = Changes(
    id: Option<string>,
    name: Option<string>,
    description: Option<Option<string>>,
    widgets: Option<seq<Value>>,
    layout: Option<string>,
    theme: Option<string>,
    filters: Option<seq<Value>>,
    permissions: Option<Permissions>,
    createdAt: Option<int>)

  /** `` `dashboard_${Date.now()}` ``. */
  function DashboardId(now: nat): string
  {
    "dashboard_" + NatText(now)
  }

  /** The stored form of a draft. */
  function Stamp(draft: Draft, id: string, now: int): (d: Dashboard)
    ensures d.id == id && d.createdAt == now && d.updatedAt == now
    ensures d.name == draft.name && d.permissions == draft.permissions
    ensures Unstamp(d) == draft
  {
    Dashboard(id, draft.name, draft.description, draft.widgets, draft.layout, draft.theme,
      draft.filters, draft.permissions, now, now)
  }

  /** A dashboard without its id and timestamps, as a draft. */
  function Unstamp(d: Dashboard): Draft
  {
    Draft(d.name, d.description, d.widgets, d.layout, d.theme, d.filters, d.permissions)
  }

  function Pick<T>(change: Option<T>, current: T): T
  {
    if change.Some? then change.value else current
  }

  /** `Object.assign(dashboard, updates, { updatedAt: new Date() })`: each
      named field is overwritten, the others are kept, and `updatedAt` is
      the time of the update. */
  function Assign(d: Dashboard, changes: Changes, now: int): (r: Dashboard)
    ensures r.updatedAt == now
    ensures changes.name.None? ==> r.name == d.name
    ensures changes.permissions.None? ==> r.permissions == d.permissions
    ensures changes.name.Some? ==> r.name == changes.name.value
    ensures changes.permissions.Some? ==> r.permissions == changes.permissions.value
    ensures r.id == if changes.id.Some? then changes.id.value else d.id
    ensures r.description == if changes.description.Some? then changes.description.value else d.description
    ensures r.widgets == if changes.widgets.Some? then changes.widgets.value else d.widgets
    ensures r.layout == if changes.layout.Some? then changes.layout.value else d.layout
    ensures r.theme == if changes.theme.Some? then changes.theme.value else d.theme
    ensures r.filters == if changes.filters.Some? then changes.filters.value else d.filters
    ensures r.createdAt == if changes.createdAt.Some? then changes.createdAt.value else d.createdAt
  {
    Dashboard(
      Pick(changes.id, d.id),
      Pick(changes.name, d.name),
      Pick(changes.description, d.description),
      Pick(changes.widgets, d.widgets),
      Pick(changes.layout, d.layout),
      Pick(changes.theme, d.theme),
      Pick(changes.filters, d.filters),
      Pick(changes.permissions, d.permissions),
      Pick(changes.createdAt, d.createdAt),
      now)
  }

  const NoChanges := Changes(None, None, None, None, None, None, None, None, None)

  /** An update naming no field only touches `updatedAt`, and repeating an
      update changes nothing more. */
  lemma AssignLaws(d: Dashboard, changes: Changes, now: int, later: int)
    ensures Assign(d, NoChanges, now) == d.(updatedAt := now)
    ensures Assign(Assign(d, changes, now), changes, later) == Assign(d, changes, later)
  {
  }

  /** `owner === userId || editors.includes(userId) || viewers.includes(userId) || public`. */
  predicate Visible(d: Dashboard, userId: string)
  {
    d.permissions.owner == userId || userId in d.permissions.editors ||
    userId in d.permissions.viewers || d.permissions.public
  }

  /** `dashboards.filter(d => Visible(d, userId))`. */
  function VisibleTo(ds: seq<Dashboard>, userId: string): (r: seq<Dashboard>)
    ensures IsSubsequence(r, ds)
    ensures forall d :: d in r ==> d in ds && Visible(d, userId)
    ensures forall d :: multiset(r)[d] == if Visible(d, userId) then multiset(ds)[d] else 0
    decreases |ds|
  {
    if |ds| == 0 then []
    else
      var rest := VisibleTo(ds[..|ds| - 1], userId);
      var d := ds[|ds| - 1];
      SubsequenceExtend(rest, ds[..|ds| - 1], d, Visible(d, userId));
      assert ds[..|ds| - 1] + [d] == ds;
      assert forall x :: x in ds[..|ds| - 1] ==> x in ds;
      if Visible(d, userId) then rest + [d] else rest
  }

  /** The filter keeps every visible dashboard. */
  lemma {:induction false} VisibleToKeeps(ds: seq<Dashboard>, userId: string, d: Dashboard)
    requires d in ds && Visible(d, userId)
    ensures d in VisibleTo(ds, userId)
    decreases |ds|
  {
    if d != ds[|ds| - 1] {
      assert d in ds[..|ds| - 1] by {
        var i :| 0 <= i < |ds| && ds[i] == d;
        assert ds[..|ds| - 1][i] == d;
      }
      VisibleToKeeps(ds[..|ds| - 1], userId, d);
    }
  }

  /** `shareDashboard`'s update of the permissions: the users are appended
      to the editors for `'edit'` and to the viewers otherwise. */
  function Share(p: Permissions, users: seq<string>, permission: string): (r: Permissions)
    ensures forall u :: u in users ==> u in r.editors + r.viewers
    ensures permission == "edit" ==> (
      && r.viewers == p.viewers && |r.editors| == |p.editors| + |users|
      && r.editors[..|p.editors|] == p.editors && r.editors[|p.editors|..] == users)
    ensures permission != "edit" ==> (
      && r.editors == p.editors && |r.viewers| == |p.viewers| + |users|
      && r.viewers[..|p.viewers|] == p.viewers && r.viewers[|p.viewers|..] == users)
    ensures r.owner == p.owner && r.public == p.public
  {
    if permission == "edit" then p.(editors := p.editors + users)
    else p.(viewers := p.viewers + users)
  }

  /** Sharing never takes access away, and gives it to every user shared with. */
  lemma ShareGrants(d: Dashboard, users: seq<string>, permission: string, userId: string)
    requires Visible(d, userId) || userId in users
    ensures Visible(d.(permissions := Share(d.permissions, users, permission)), userId)
  {
    var p := Share(d.permissions, users, permission);
    if userId in d.permissions.editors {
      assert userId in p.editors by {
        var i :| 0 <= i < |d.permissions.editors| && d.permissions.editors[i] == userId;
        assert p.editors[i] == userId;
      }
    } else if userId in d.permissions.viewers {
      assert userId in p.viewers by {
        var i :| 0 <= i < |d.permissions.viewers| && d.permissions.viewers[i] == userId;
        assert p.viewers[i] == userId;
      }
    } else if userId in users && d.permissions.owner != userId && !d.permissions.public {
      assert userId in p.editors + p.viewers;
    }
  }

  /** The draft `cloneDashboard` hands to `createDashboard`. */
  function CloneDraft(original: Dashboard, newName: string, userId: string): (draft: Draft)
    ensures draft.name == newName
    ensures draft.permissions == Permissions(userId, [], [], false)
    ensures draft.widgets == original.widgets && draft.filters == original.filters
    ensures draft.description == original.description
    ensures draft.layout == original.layout && draft.theme == original.theme
  {
    Unstamp(original).(name := newName, permissions := Permissions(userId, [], [], false))
  }

  /** A clone is visible to the one who made it and to nobody else. */
  lemma CloneVisibility(original: Dashboard, newName: string, userId: string, id: string, now: int, other: string)
    ensures Visible(Stamp(CloneDraft(original, newName, userId), id, now), other) <==> other == userId
  {
  }

  /** The module-level `dashboards` map. */
  class DashboardStore {
    var dashboards: OMap<string, Dashboard>

    ghost predicate Valid()
      reads this
    {
      dashboards.Valid()
    }

    constructor ()
      ensures Valid() && dashboards == Empty()
    {
      dashboards := Empty();
    }

    /** `createDashboard`: stored under the id made from the clock; a
        dashboard created in the same millisecond is replaced. */
    method CreateDashboard(draft: Draft, now: nat) returns (id: string)
      requires Valid()
      modifies this
      ensures Valid()
      ensures id == DashboardId(now)
      ensures dashboards == old(dashboards).Set(id, Stamp(draft, id, now))
      ensures GetDashboard(id) == Some(Stamp(draft, id, now))
    {
      id := "dashboard_" + NatText(now);
      dashboards := dashboards.Set(id, Stamp(draft, id, now));
    }

    /** `updateDashboard`. */
    method UpdateDashboard(id: string, changes: Changes, now: int) returns (updated: bool)
      requires Valid()
      modifies this
      ensures Valid()
      ensures updated <==> id in old(dashboards.entries)
      ensures !updated ==> dashboards == old(dashboards)
      ensures updated ==> dashboards == old(dashboards).Set(id, Assign(old(dashboards.entries[id]), changes, now))
      ensures dashboards.keys == old(dashboards.keys)
    {
      if id !in dashboards.entries {
        return false;
      }
      var dashboard := dashboards.entries[id];
      dashboards := dashboards.Set(id, Assign(dashboard, changes, now));
      updated := true;
    }

    /** `getDashboard`. */
    function GetDashboard(id: string): (r: Option<Dashboard>)
      reads this
      ensures r.Some? <==> id in dashboards.entries
      ensures r.Some? ==> r.value == dashboards.entries[id]
    {
      dashboards.Get(id)
    }

    /** `deleteDashboard`. */
    method DeleteDashboard(id: string) returns (existed: bool)
      requires Valid()
      modifies this
      ensures Valid()
      ensures existed <==> id in old(dashboards.entries)
      ensures GetDashboard(id) == None
      ensures dashboards.entries == old(dashboards.entries) - {id}
      ensures dashboards.keys == Without(old(dashboards.keys), id)
    {
      existed := id in dashboards.entries;
      dashboards := dashboards.Remove(id);
    }

    /** `listDashboards`: the stored dashboards the user may see, in
        insertion order. */
    function ListDashboards(userId: string): (r: seq<Dashboard>)
      reads this
      requires Valid()
      ensures forall d :: d in r <==> d in dashboards.entries.Values && Visible(d, userId)
      ensures IsSubsequence(r, dashboards.Values())
      ensures forall d :: multiset(r)[d] == if Visible(d, userId) then multiset(dashboards.Values())[d] else 0
    {
      var all := dashboards.Values();
      assert forall d :: d in all <==> d in dashboards.entries.Values by {
        forall d ensures d in all <==> d in dashboards.entries.Values {
          if d in dashboards.entries.Values {
            var id :| id in dashboards.entries && dashboards.entries[id] == d;
            var i :| 0 <= i < |dashboards.keys| && dashboards.keys[i] == id;
            assert all[i] == d;
          }
        }
      }
      forall d | d in all && Visible(d, userId) ensures d in VisibleTo(all, userId) {
        VisibleToKeeps(all, userId, d);
      }
      VisibleTo(all, userId)
    }

    /** `shareDashboard`. */
    method ShareDashboard(id: string, users: seq<string>, permission: string) returns (shared: bool)
      requires Valid()
      modifies this
      ensures Valid()
      ensures shared <==> id in old(dashboards.entries)
      ensures !shared ==> dashboards == old(dashboards)
      ensures shared ==> dashboards == old(dashboards).Set(id,
        old(dashboards.entries[id]).(permissions := Share(old(dashboards.entries[id]).permissions, users, permission)))
    {
      if id !in dashboards.entries {
        return false;
      }
      var dashboard := dashboards.entries[id];
      var permissions := dashboard.permissions;
      if permission == "edit" {
        permissions := permissions.(editors := permissions.editors + users);
      } else {
        permissions := permissions.(viewers := permissions.viewers + users);
      }
      dashboards := dashboards.Set(id, dashboard.(permissions := permissions));
      shared := true;
    }

    /** `cloneDashboard`: an error for an unknown id, otherwise a new
        dashboard made from the original's content under the new name,
        owned by the caller alone. */
    method CloneDashboard(id: string, newName: string, userId: string, now: nat) returns (r: Result<string>)
      requires Valid()
      modifies this
      ensures Valid()
      ensures r.Err? <==> id !in old(dashboards.entries)
      ensures r.Err? ==> dashboards == old(dashboards) && r.message == "Dashboard not found"
      ensures r.Ok? ==> r.value == DashboardId(now)
      ensures r.Ok? ==> dashboards == old(dashboards).Set(r.value, Stamp(CloneDraft(old(dashboards.entries[id]), newName, userId), r.value, now))
    {
      if id !in dashboards.entries {
        return Err("Dashboard not found");
      }
      var original := dashboards.entries[id];
      var newId := CreateDashboard(CloneDraft(original, newName, userId), now);
      r := Ok(newId);
    }
  }
}
