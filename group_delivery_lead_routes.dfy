/** app/group_delivery_lead/routes.py: the three-level delivery head →
    delivery lead → manager → employees tree over the database records. */
module GroupDeliveryLeadRoutes {
  import opened Common
  import opened Records
  import opened Views
  import opened Utils

  function ManagerNodeOf(db: Db): string -> ManagerNode<Option<string>> {
    (mgr: string) => ManagerNode(mgr, Summaries(db, EmployeesByManager(db, mgr)))
  }

  function DlNodeOf(db: Db): string -> DlNode<Option<string>> {
    (dl: string) => DlNode(dl, Map(ManagersByDl(db, dl), ManagerNodeOf(db)))
  }

  function DhNodeOf(db: Db): string -> DhNode<Option<string>> {
    (dh: string) => DhNode(dh, Map(DlsByDh(db, dh), DlNodeOf(db)))
  }

  /** The tree under one group delivery lead: one node per delivery head. */
  function GdlTree(db: Db, gdl: string): (r: seq<DhNode<Option<string>>>)
    ensures |r| == |DhsByGdl(db, gdl)|
  {
    Map(DhsByGdl(db, gdl), DhNodeOf(db))
  }

  /** The top level lists the group delivery lead's delivery heads one-to-one,
      none of them `'N/A'` or empty, each with the subtree built for it. */
  lemma GdlTreeHeads(db: Db, gdl: string)
    ensures var t := GdlTree(db, gdl);
      && |t| == |DhsByGdl(db, gdl)|
      && forall i :: 0 <= i < |t| ==>
        && t[i].name == DhsByGdl(db, gdl)[i]
        && t[i].name != NotAssigned && t[i].name != ""
        && t[i] == DhNodeOf(db)(t[i].name)
  {
    var names := DhsByGdl(db, gdl);
    MapAt(names, DhNodeOf(db));
    forall i | 0 <= i < |names| ensures names[i] != NotAssigned && names[i] != "" {
      assert names[i] in names;
    }
  }

  /** A delivery-head node lists that head's delivery leads one-to-one, none
      of them `'N/A'` or empty, each with the node built for it. */
  lemma DhNodeLeads(db: Db, dh: string)
    ensures var n := DhNodeOf(db)(dh);
      && n.name == dh
      && |n.dls| == |DlsByDh(db, dh)|
      && forall j :: 0 <= j < |n.dls| ==>
        && n.dls[j].name == DlsByDh(db, dh)[j]
        && n.dls[j].name != NotAssigned && n.dls[j].name != ""
        && n.dls[j] == DlNodeOf(db)(n.dls[j].name)
  {
    var names := DlsByDh(db, dh);
    MapAt(names, DlNodeOf(db));
    forall j | 0 <= j < |names| ensures names[j] != NotAssigned && names[j] != "" {
      assert names[j] in names;
    }
  }

  /** A delivery-lead node lists that lead's managers one-to-one, none of them
      `'N/A'` or empty, each with the summaries of exactly that manager's
      reports. */
  lemma DlNodeManagers(db: Db, dl: string)
    ensures var n := DlNodeOf(db)(dl);
      && n.name == dl
      && |n.managers| == |ManagersByDl(db, dl)|
      && forall k :: 0 <= k < |n.managers| ==>
        && n.managers[k].name == ManagersByDl(db, dl)[k]
        && n.managers[k].name != NotAssigned && n.managers[k].name != ""
        && n.managers[k].employees == Summaries(db, EmployeesByManager(db, n.managers[k].name))
  {
    var names := ManagersByDl(db, dl);
    MapAt(names, ManagerNodeOf(db));
    forall k | 0 <= k < |names| ensures names[k] != NotAssigned && names[k] != "" {
      assert names[k] in names;
    }
  }

  /** The innermost loop of `dashboard`: one node per manager. */
  method ManagerNodes(db: Db, managerNames: seq<string>) returns (managersData: seq<ManagerNode<Option<string>>>)
    ensures managersData == Map(managerNames, ManagerNodeOf(db))
  {
    managersData := [];
    for m := 0 to |managerNames|
      invariant managersData == Map(managerNames[..m], ManagerNodeOf(db))
    {
      var mgr := managerNames[m];
      var empDf := EmployeesByManager(db, mgr);
      var employees := EmployeeSummary(db, empDf);
      MapPrefix(managerNames, ManagerNodeOf(db), m);
      managersData := managersData + [ManagerNode(mgr, employees)];
    }
    assert managerNames[..|managerNames|] == managerNames;
  }

  /** The middle loop: one node per delivery lead. */
  method DlNodes(db: Db, dlNames: seq<string>) returns (dlsData: seq<DlNode<Option<string>>>)
    ensures dlsData == Map(dlNames, DlNodeOf(db))
  {
    dlsData := [];
    for k := 0 to |dlNames|
      invariant dlsData == Map(dlNames[..k], DlNodeOf(db))
    {
      var dl := dlNames[k];
      var managersData := ManagerNodes(db, ManagersByDl(db, dl));
      MapPrefix(dlNames, DlNodeOf(db), k);
      dlsData := dlsData + [DlNode(dl, managersData)];
    }
    assert dlNames[..|dlNames|] == dlNames;
  }

  /** The outer loop: one node per delivery head. */
  method DhNodes(db: Db, dhNames: seq<string>) returns (dhsData: seq<DhNode<Option<string>>>)
    ensures dhsData == Map(dhNames, DhNodeOf(db))
  {
    dhsData := [];
    for i := 0 to |dhNames|
      invariant dhsData == Map(dhNames[..i], DhNodeOf(db))
    {
      var dh := dhNames[i];
      var dlsData := DlNodes(db, DlsByDh(db, dh));
      MapPrefix(dhNames, DhNodeOf(db), i);
      dhsData := dhsData + [DhNode(dh, dlsData)];
    }
    assert dhNames[..|dhNames|] == dhNames;
  }

  /** `dashboard`: the tree under the group delivery lead. */
  method Dashboard(db: Db, gdlName: string) returns (dhsData: seq<DhNode<Option<string>>>)
    ensures dhsData == GdlTree(db, gdlName)
  {
    var dhNames := DhsByGdl(db, gdlName);
    dhsData := DhNodes(db, dhNames);
  }
}
