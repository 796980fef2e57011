/** Reading a checkpoint (scripts/operator_plan_validation.py): one pass over its
    rows that must leave every physical resource with a single manager. */
module Checkpoint {
  import opened Wrappers
  import opened JsonValues
  import opened Properties
  import opened PlanRules

  /* ---------- physical identity ---------- */

  /** What follows the last `mark`, or everything when there is none. */
  function Tail(s: string, mark: char): string {
    if mark in s then Tail(s[1..], mark) else s
  }

  predicate VersionId(row: Row) {
    && Text(Get(row.inputs, "secretId")).Ok?
    && var selector := Text(Get(row.inputs, "secretId")).value;
       && multiset(row.id)['|'] == 1
       && row.id == selector + "|" + Tail(row.id, '|')
       && Tail(row.id, '|') != ""
       && Get(row.outputs, "secretId") == JText(selector)
  }

  predicate ExclusiveId(row: Row) {
    && Get(row.inputs, "roleName") == JText(row.id) == Get(row.outputs, "roleName")
    && StringSet(Get(row.outputs, POLICY_ARNS)).Ok?
    && StringSet(Get(row.outputs, POLICY_ARNS)) == StringSet(Get(row.inputs, POLICY_ARNS))
  }

  predicate PhysicalId(row: Row, target: Target) {
    && Concrete(row.id)
    && (row.kind in {ROLE, POLICY, SECRET, VERSION, OIDC} ==> Get(row.outputs, "arn") == JText(Holder(target)))
    && (row.kind == ROLE ==> row.id == Tail(Holder(target), '/'))
    && (row.kind in {POLICY, SECRET, OIDC} ==> row.id == Holder(target))
    && (row.kind == INLINE && target.Pair? ==> row.id == Tail(target.role, '/') + ":" + target.other)
    && (row.kind == VERSION ==> VersionId(row))
    && (row.kind == EXCLUSIVE ==> ExclusiveId(row))
  }

  /** What makes two rows the same physical resource: type and ID, except that a
      secret version is known by its secret and version however it is selected. */
  datatype Identity = ById(kind: string, id: string) | OfSecret(secret: string, version: string)

  function IdentityOf(row: Row, target: Target): Identity {
    if row.kind == VERSION then OfSecret(Holder(target), Tail(row.id, '|')) else ById(row.kind, row.id)
  }

  predicate WritableRole(row: Row, target: Target, catalog: Catalog) {
    row.kind == ROLE && Holder(target) in catalog.roleWrite
  }

  /* ---------- the fold ---------- */

  /** Per identity: whether only references were seen, and the target. */
  datatype Owner = Owner(onlyReferences: bool, target: Target)

  type Owners = map<Identity, Owner>

  function Own(row: Row, target: Target, owners: Owners, catalog: Catalog): Result<Owners> {
    var identity := IdentityOf(row, target);
    var seen := if identity in owners then owners[identity] else Owner(true, target);
    var roleReference := WritableRole(row, target, catalog) && (row.external || seen.onlyReferences);
    if seen.target == target && (identity !in owners || (row.external && seen.onlyReferences) || roleReference)
    then Ok(owners[identity := Owner(row.external && seen.onlyReferences, target)])
    else Rejected
  }

  /* ---------- what a checkpoint must be ---------- */

  predicate RowAccepted(row: Row, catalog: Catalog) {
    && StateAccepted(row, Saved, catalog)
    && TargetOf(row, catalog).Ok?
    && (row.custom ==> PhysicalId(row, TargetOf(row, catalog).value))
  }

  predicate Claims(row: Row, identity: Identity, catalog: Catalog) {
    row.custom && TargetOf(row, catalog).Ok? && IdentityOf(row, TargetOf(row, catalog).value) == identity
  }

  predicate SamePhysical(a: Row, b: Row, catalog: Catalog) {
    && a.custom && b.custom && TargetOf(a, catalog).Ok? && TargetOf(b, catalog).Ok?
    && IdentityOf(a, TargetOf(a, catalog).value) == IdentityOf(b, TargetOf(b, catalog).value)
  }

  /** Two rows may name one physical resource only at the same target and only
      if both are references, or one is and the resource is a writable role. */
  predicate Agree(a: Row, b: Row, catalog: Catalog) {
    SamePhysical(a, b, catalog) ==>
      && TargetOf(a, catalog) == TargetOf(b, catalog)
      && ((a.external && b.external)
           || ((a.external || b.external) && WritableRole(a, TargetOf(a, catalog).value, catalog)))
  }

  function Stacks(inventory: Inventory): set<Urn> {
    set u | u in inventory && inventory[u].kind == STACK
  }

  ghost predicate Admitted(inventory: Inventory, catalog: Catalog) {
    && (forall u :: u in inventory ==> inventory[u].urn == u && RowAccepted(inventory[u], catalog))
    && (forall u, v :: u in inventory && v in inventory && u != v ==> Agree(inventory[u], inventory[v], catalog))
    && |Stacks(inventory)| == 1
    && (forall u :: u in inventory ==> ReferencesAccepted(inventory[u], inventory, catalog, true))
  }

  ghost predicate DistinctUrns(rows: seq<Row>) {
    forall i, j :: 0 <= i < j < |rows| ==> rows[i].urn != rows[j].urn
  }

  function InventoryOf(rows: seq<Row>): (r: Inventory)
    ensures forall u :: u in r ==> r[u].urn == u && r[u] in rows
    ensures forall row :: row in rows ==> row.urn in r
  {
    if rows == [] then map[]
    else
      var n := |rows| - 1;
      InventoryOf(rows[..n])[rows[n].urn := rows[n]]
  }

  lemma {:induction false} InventoryHolds(rows: seq<Row>, row: Row)
    requires DistinctUrns(rows) && row in rows
    ensures InventoryOf(rows)[row.urn] == row
  {
    var n := |rows| - 1;
    if row != rows[n] {
      InventoryHolds(rows[..n], row);
      var i :| 0 <= i < n && rows[i] == row;
    }
  }

  /* ---------- the fold against its specification ---------- */

  /** The fold's state is a summary of the rows taken in. */
  ghost predicate Summarizes(owners: Owners, rows: seq<Row>, catalog: Catalog) {
    && (forall row :: row in rows && row.custom && TargetOf(row, catalog).Ok? ==>
          var identity := IdentityOf(row, TargetOf(row, catalog).value);
          && identity in owners
          && owners[identity].target == TargetOf(row, catalog).value
          && (owners[identity].onlyReferences ==> row.external))
    && (forall identity :: identity in owners && !owners[identity].onlyReferences ==>
          exists row :: row in rows && Claims(row, identity, catalog) && !row.external)
    && (forall identity :: identity in owners ==> exists row :: row in rows && Claims(row, identity, catalog))
  }

  ghost predicate AgreesWithAll(row: Row, rows: seq<Row>, catalog: Catalog) {
    forall other :: other in rows ==> Agree(other, row, catalog)
  }

  /** One step of the fold accepts exactly the rows that agree with every row
      before. */
  lemma OwnIsAgreement(row: Row, owners: Owners, rows: seq<Row>, catalog: Catalog)
    requires row.custom && TargetOf(row, catalog).Ok? && Summarizes(owners, rows, catalog)
    ensures Own(row, TargetOf(row, catalog).value, owners, catalog).Ok? <==> AgreesWithAll(row, rows, catalog)
  {
    hide TargetOf;
    var target := TargetOf(row, catalog).value;
    var identity := IdentityOf(row, target);
    if identity in owners {
      if AgreesWithAll(row, rows, catalog) {
        var other :| other in rows && Claims(other, identity, catalog);
        assert Agree(other, row, catalog);
        if !owners[identity].onlyReferences {
          var manager :| manager in rows && Claims(manager, identity, catalog) && !manager.external;
          assert Agree(manager, row, catalog);
        }
      }
    }
  }

  /** A claim seen among some rows is seen among more. */
  lemma ClaimsStay(rows: seq<Row>, row: Row, owners: Owners, catalog: Catalog)
    requires Summarizes(owners, rows, catalog)
    ensures forall identity :: identity in owners ==> exists r :: r in rows + [row] && Claims(r, identity, catalog)
    ensures forall identity :: identity in owners && !owners[identity].onlyReferences ==>
              exists r :: r in rows + [row] && Claims(r, identity, catalog) && !r.external
  {
    hide TargetOf, WritableRole, IdentityOf, Claims;
    var all := rows + [row];
    forall identity | identity in owners ensures exists r :: r in all && Claims(r, identity, catalog) {
      var r :| r in rows && Claims(r, identity, catalog);
      assert r in all;
    }
    forall identity | identity in owners && !owners[identity].onlyReferences
      ensures exists r :: r in all && Claims(r, identity, catalog) && !r.external
    {
      var r :| r in rows && Claims(r, identity, catalog) && !r.external;
      assert r in all;
    }
  }

  /** What one step changes: the entry of the row's own resource. */
  lemma OwnUpdates(row: Row, target: Target, owners: Owners, catalog: Catalog)
    requires Own(row, target, owners, catalog).Ok?
    ensures var identity, after := IdentityOf(row, target), Own(row, target, owners, catalog).value;
            && identity in after && after[identity].target == target
            && (identity in owners ==> owners[identity].target == target)
            && (after[identity].onlyReferences <==>
                row.external && (identity in owners ==> owners[identity].onlyReferences))
            && forall other :: other != identity ==>
                 && (other in after <==> other in owners)
                 && (other in owners ==> after[other] == owners[other])
  {
    hide IdentityOf, WritableRole;
  }

  lemma OwnSummarizes(row: Row, owners: Owners, rows: seq<Row>, catalog: Catalog)
    requires row.custom && TargetOf(row, catalog).Ok? && Summarizes(owners, rows, catalog)
    requires Own(row, TargetOf(row, catalog).value, owners, catalog).Ok?
    ensures Summarizes(Own(row, TargetOf(row, catalog).value, owners, catalog).value, rows + [row], catalog)
  {
    ClaimsStay(rows, row, owners, catalog);
    var target := TargetOf(row, catalog).value;
    OwnUpdates(row, target, owners, catalog);
    hide TargetOf, IdentityOf, Own;
    assert row in rows + [row] && Claims(row, IdentityOf(row, target), catalog);
  }

  lemma AgreeIsSymmetric(a: Row, b: Row, catalog: Catalog)
    ensures Agree(a, b, catalog) <==> Agree(b, a, catalog)
  {
    hide TargetOf;
  }

  ghost predicate Coherent(rows: seq<Row>, catalog: Catalog) {
    && DistinctUrns(rows)
    && (forall row :: row in rows ==> RowAccepted(row, catalog))
    && (forall a, b :: a in rows && b in rows && a != b ==> Agree(a, b, catalog))
  }

  lemma CoherentSnoc(rows: seq<Row>, row: Row, catalog: Catalog)
    requires Coherent(rows, catalog)
    ensures Coherent(rows + [row], catalog)
       <==> row.urn !in InventoryOf(rows) && RowAccepted(row, catalog) && AgreesWithAll(row, rows, catalog)
  {
    hide RowAccepted, Agree, InventoryOf;
    var all := rows + [row];
    assert forall r :: r in all <==> r in rows || r == row;
    if Coherent(all, catalog) {
      forall r | r in rows ensures r.urn != row.urn && Agree(r, row, catalog) {
        var i :| 0 <= i < |rows| && rows[i] == r;
        assert all[i].urn != all[|rows|].urn;
      }
    }
    if row.urn !in InventoryOf(rows) && RowAccepted(row, catalog) && AgreesWithAll(row, rows, catalog) {
      forall r | r in rows ensures Agree(r, row, catalog) && Agree(row, r, catalog) && r.urn != row.urn {
        AgreeIsSymmetric(r, row, catalog);
      }
    }
  }

  lemma CoherentPrefix(rows: seq<Row>, i: nat, catalog: Catalog)
    requires i <= |rows| && Coherent(rows, catalog)
    ensures Coherent(rows[..i], catalog)
  {
    assert forall r :: r in rows[..i] ==> r in rows;
  }

  /** The loop over the rows: URNs, targets, IDs and owners. */
  method Collect(rows: seq<Row>, catalog: Catalog) returns (r: Result<Inventory>)
    ensures r.Ok? <==> Coherent(rows, catalog)
    ensures r.Ok? ==> r.value == InventoryOf(rows)
  {
    hide StateAccepted, TargetOf, PhysicalId, Own, Summarizes, Coherent, InventoryOf;
    var resources: Inventory := map[];
    var owners: Owners := map[];
    EmptyPrefix(catalog);
    for i := 0 to |rows|
      invariant resources == InventoryOf(rows[..i])
      invariant Coherent(rows[..i], catalog)
      invariant Summarizes(owners, rows[..i], catalog)
    {
      var row := rows[i];
      NextRow(rows, i, owners, catalog);
      if !StateAccepted(row, Saved, catalog) || row.urn in resources || TargetOf(row, catalog).Rejected? {
        return Rejected;
      }
      var target := TargetOf(row, catalog).value;
      if row.custom {
        if !PhysicalId(row, target) {
          return Rejected;
        }
        var owned := Own(row, target, owners, catalog);
        if owned.Rejected? {
          return Rejected;
        }
        owners := owned.value;
      }
      resources := resources[row.urn := row];
    }
    assert rows[..|rows|] == rows;
    return Ok(resources);
  }

  lemma EmptyPrefix(catalog: Catalog)
    ensures InventoryOf([]) == map[] && Coherent([], catalog) && Summarizes(map[], [], catalog)
  {
  }

  /** The fold takes a row in. */
  predicate Taken(row: Row, owners: Owners, inventory: Inventory, catalog: Catalog) {
    && RowAccepted(row, catalog) && row.urn !in inventory
    && (row.custom ==> Own(row, TargetOf(row, catalog).value, owners, catalog).Ok?)
  }

  /** The owners after a row was taken in. */
  function OwnersAfter(row: Row, owners: Owners, inventory: Inventory, catalog: Catalog): Owners
    requires Taken(row, owners, inventory, catalog)
  {
    if row.custom then Own(row, TargetOf(row, catalog).value, owners, catalog).value else owners
  }

  /** One turn of the loop: what it tests decides coherence, and what it updates
      stays a summary. */
  lemma NextRow(rows: seq<Row>, i: nat, owners: Owners, catalog: Catalog)
    requires i < |rows| && Coherent(rows[..i], catalog) && Summarizes(owners, rows[..i], catalog)
    ensures Taken(rows[i], owners, InventoryOf(rows[..i]), catalog) ==>
              && Coherent(rows[..i + 1], catalog)
              && Summarizes(OwnersAfter(rows[i], owners, InventoryOf(rows[..i]), catalog), rows[..i + 1], catalog)
    ensures !Taken(rows[i], owners, InventoryOf(rows[..i]), catalog) ==> !Coherent(rows, catalog)
    ensures InventoryOf(rows[..i + 1]) == InventoryOf(rows[..i])[rows[i].urn := rows[i]]
  {
    hide Taken, OwnersAfter, Coherent, Summarizes;
    var row := rows[i];
    assert rows[..i + 1] == rows[..i] + [row];
    assert rows[..i + 1][..i] == rows[..i];
    if Coherent(rows, catalog) {
      CoherentPrefix(rows, i + 1, catalog);
    }
    TakenIsCoherent(rows[..i], row, owners, catalog);
  }

  lemma TakenIsCoherent(rows: seq<Row>, row: Row, owners: Owners, catalog: Catalog)
    requires Coherent(rows, catalog) && Summarizes(owners, rows, catalog)
    ensures Taken(row, owners, InventoryOf(rows), catalog) <==> Coherent(rows + [row], catalog)
    ensures Taken(row, owners, InventoryOf(rows), catalog) ==>
              Summarizes(OwnersAfter(row, owners, InventoryOf(rows), catalog), rows + [row], catalog)
  {
    hide StateAccepted, TargetOf, PhysicalId, Own, Summarizes, Agree, Coherent, AgreesWithAll, InventoryOf;
    CoherentSnoc(rows, row, catalog);
    if RowAccepted(row, catalog) {
      if row.custom {
        OwnIsAgreement(row, owners, rows, catalog);
        if Own(row, TargetOf(row, catalog).value, owners, catalog).Ok? {
          OwnSummarizes(row, owners, rows, catalog);
        }
      } else {
        ComponentsAgree(row, owners, rows, catalog);
      }
    }
  }

  lemma ComponentsAgree(row: Row, owners: Owners, rows: seq<Row>, catalog: Catalog)
    requires !row.custom && Summarizes(owners, rows, catalog)
    ensures AgreesWithAll(row, rows, catalog) && Summarizes(owners, rows + [row], catalog)
  {
    hide TargetOf;
    var all := rows + [row];
    forall identity | identity in owners ensures exists r :: r in all && Claims(r, identity, catalog) {
      var r :| r in rows && Claims(r, identity, catalog);
      assert r in all;
    }
    forall identity | identity in owners && !owners[identity].onlyReferences
      ensures exists r :: r in all && Claims(r, identity, catalog) && !r.external
    {
      var r :| r in rows && Claims(r, identity, catalog) && !r.external;
      assert r in all;
    }
  }

  /** The second pass, over the complete inventory. */
  method CheckReferences(rows: seq<Row>, resources: Inventory, catalog: Catalog) returns (ok: bool)
    requires DistinctUrns(rows) && resources == InventoryOf(rows)
    ensures ok <==> forall u :: u in resources ==> ReferencesAccepted(resources[u], resources, catalog, true)
  {
    hide ReferencesAccepted, InventoryOf;
    for i := 0 to |rows|
      invariant forall k :: 0 <= k < i ==> ReferencesAccepted(rows[k], resources, catalog, true)
    {
      InventoryHolds(rows, rows[i]);
      if !ReferencesAccepted(rows[i], resources, catalog, true) {
        return false;
      }
    }
    return true;
  }

  /** A checkpoint is read exactly when its URNs are distinct and the inventory
      they form is admitted. */
  method ReadCheckpoint(rows: seq<Row>, catalog: Catalog) returns (r: Result<Inventory>)
    ensures r.Ok? <==> DistinctUrns(rows) && Admitted(InventoryOf(rows), catalog)
    ensures r.Ok? ==> r.value == InventoryOf(rows)
  {
    hide ReferencesAccepted, RowAccepted, Agree, InventoryOf, Stacks;
    var collected := Collect(rows, catalog);
    if DistinctUrns(rows) {
      CoherentInventory(rows, catalog);
    }
    if collected.Rejected? {
      return Rejected;
    }
    var resources := collected.value;
    if |Stacks(resources)| != 1 {
      return Rejected;
    }
    var ok := CheckReferences(rows, resources, catalog);
    return if ok then Ok(resources) else Rejected;
  }

  lemma CoherentInventory(rows: seq<Row>, catalog: Catalog)
    requires DistinctUrns(rows)
    ensures Coherent(rows, catalog)
       <==> && (forall u :: u in InventoryOf(rows) ==> RowAccepted(InventoryOf(rows)[u], catalog))
            && (forall u, v :: u in InventoryOf(rows) && v in InventoryOf(rows) && u != v ==>
                  Agree(InventoryOf(rows)[u], InventoryOf(rows)[v], catalog))
  {
    forall row | row in rows ensures InventoryOf(rows)[row.urn] == row {
      InventoryHolds(rows, row);
    }
  }

  /** The order of a checkpoint's rows does not matter. */
  lemma OrderIsIrrelevant(a: seq<Row>, b: seq<Row>)
    requires DistinctUrns(a) && DistinctUrns(b) && forall row :: row in a <==> row in b
    ensures InventoryOf(a) == InventoryOf(b)
  {
    hide InventoryOf;
    var m, n := InventoryOf(a), InventoryOf(b);
    forall u | u in m ensures u in n && n[u] == m[u] {
      InventoryHolds(b, m[u]);
    }
    forall u | u in n ensures u in m {
    }
  }

  /** The same condition told per physical resource. */
  ghost predicate OneManager(inventory: Inventory, identity: Identity, catalog: Catalog) {
    forall u, v :: && u in inventory && v in inventory
                   && Claims(inventory[u], identity, catalog) && Claims(inventory[v], identity, catalog) ==>
      && TargetOf(inventory[u], catalog) == TargetOf(inventory[v], catalog)
      && (!inventory[u].external && !inventory[v].external ==> u == v)
      && (!inventory[u].external && inventory[v].external ==>
            WritableRole(inventory[u], TargetOf(inventory[u], catalog).value, catalog))
  }

  /** Pairwise agreement is: for every physical resource, all rows agree on the
      target, at most one manages it, and only a writable role is both managed
      and referenced. */
  lemma AgreementIsOneManager(inventory: Inventory, catalog: Catalog)
    ensures (forall u, v :: u in inventory && v in inventory && u != v ==> Agree(inventory[u], inventory[v], catalog))
       <==> forall identity :: OneManager(inventory, identity, catalog)
  {
    hide TargetOf, WritableRole;
    if forall identity :: OneManager(inventory, identity, catalog) {
      forall u, v | u in inventory && v in inventory && u != v ensures Agree(inventory[u], inventory[v], catalog) {
        if SamePhysical(inventory[u], inventory[v], catalog) {
          var identity := IdentityOf(inventory[u], TargetOf(inventory[u], catalog).value);
          assert OneManager(inventory, identity, catalog);
          SameWritable(inventory[u], inventory[v], catalog);
        }
      }
    }
    if forall u, v :: u in inventory && v in inventory && u != v ==> Agree(inventory[u], inventory[v], catalog) {
      forall identity ensures OneManager(inventory, identity, catalog) {
        forall u, v | && u in inventory && v in inventory
                      && Claims(inventory[u], identity, catalog) && Claims(inventory[v], identity, catalog)
          ensures u != v ==>
                    Agree(inventory[u], inventory[v], catalog) && SamePhysical(inventory[u], inventory[v], catalog)
        {
        }
      }
    }
  }

  lemma SameWritable(a: Row, b: Row, catalog: Catalog)
    requires SamePhysical(a, b, catalog) && TargetOf(a, catalog) == TargetOf(b, catalog)
    ensures WritableRole(a, TargetOf(a, catalog).value, catalog)
       <==> WritableRole(b, TargetOf(b, catalog).value, catalog)
  {
    hide TargetOf;
  }
}
