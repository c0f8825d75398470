/** Rebuilding the lsblk tree and choosing the multipath device above the paths of a volume. */
module Multipath {
  import opened Results

  datatype Row = Row(name: string, kname: string, pkname: string, hctl: string, typ: string, tran: string, size: string)

  datatype Device = Device(name: string, hctl: string, typ: string, tran: string, size: string, children: seq<Device>)

  // A line with five or six columns is indexed past its end, which panics.
  datatype LsblkError = InvalidOutput | IndexPanic | ParentNotFound(pkname: string)

  // ---- parsing ----

  // The lines of the output, each split into its columns.
  function Parsed(lines: seq<seq<string>>): Result<seq<Row>, LsblkError> {
    if lines == [] then Ok([])
    else match Parsed(lines[..|lines| - 1])
      case Err(e) => Err(e)
      case Ok(rows) =>
        var c := lines[|lines| - 1];
        if |c| < 5 then Err(InvalidOutput)
        else if |c| < 7 then Err(IndexPanic)
        else Ok(rows + [Row(c[0], c[1], c[2], c[3], c[4], c[5], c[6])])
  }

  // The columns come in the order lsblk is asked for them.
  predicate Shows(line: seq<string>, row: Row) {
    && |line| >= 7
    && line[0] == row.name && line[1] == row.kname && line[2] == row.pkname && line[3] == row.hctl
    && line[4] == row.typ && line[5] == row.tran && line[6] == row.size
  }

  // Lines of seven columns or more give a row each.
  lemma {:induction false} RowsShowLines(lines: seq<seq<string>>, rows: seq<Row>)
    ensures Parsed(lines) == Ok(rows) <==>
            |rows| == |lines| && forall i | 0 <= i < |rows| :: Shows(lines[i], rows[i])
  {
    var n := |lines| - 1;
    if lines == [] {
      assert |rows| == 0 <==> rows == [];
    } else if |rows| == |lines| {
      RowsShowLines(lines[..n], rows[..n]);
      assert rows == rows[..n] + [rows[n]];
    } else if Parsed(lines).Ok? {
      var front := Parsed(lines[..n]);
      RowsShowLines(lines[..n], front.value);
    }
  }

  // The first line with fewer decides what is wrong.
  lemma {:induction false} ShortLineFails(lines: seq<seq<string>>)
    ensures Parsed(lines).Err? <==> exists i | 0 <= i < |lines| :: |lines[i]| < 7
    ensures forall i | 0 <= i < |lines| && |lines[i]| < 7 && (forall j | 0 <= j < i :: |lines[j]| >= 7) ::
              Parsed(lines) == Err(if |lines[i]| < 5 then InvalidOutput else IndexPanic)
  {
    if lines != [] {
      var n := |lines| - 1;
      ShortLineFails(lines[..n]);
      assert forall i | 0 <= i < n :: lines[..n][i] == lines[i];
    }
  }

  // ---- the tree ----

  // The row a kernel name stands for: the last one with it.
  function Owner(rows: seq<Row>, kname: string): (r: Option<nat>)
    ensures r.Some? ==> r.value < |rows|
  {
    var n := |rows| - 1;
    if rows == [] then None
    else if rows[n].kname == kname then Some(n)
    else Owner(rows[..n], kname)
  }

  lemma {:induction false} OwnerIsLast(rows: seq<Row>, kname: string)
    ensures var r := Owner(rows, kname);
            if r.Some? then
              rows[r.value].kname == kname && forall j | r.value < j < |rows| :: rows[j].kname != kname
            else
              forall row | row in rows :: row.kname != kname
  {
    if rows != [] {
      OwnerIsLast(rows[..|rows| - 1], kname);
    }
  }

  predicate Resolves(rows: seq<Row>) {
    forall i | 0 <= i < |rows| && rows[i].pkname != "" :: Owner(rows, rows[i].pkname).Some?
  }

  function DeviceOf(row: Row, children: seq<Device>): Device {
    Device(row.name, row.hctl, row.typ, row.tran, row.size, children)
  }

  // The children of every row once the first i rows have been handed to their parents, each as it was then.
  function Rebuilt(rows: seq<Row>, i: nat): (kids: seq<seq<Device>>)
    requires Resolves(rows) && i <= |rows|
    ensures |kids| == |rows|
  {
    if i == 0 then seq(|rows|, _ => [])
    else
      var kids, row := Rebuilt(rows, i - 1), rows[i - 1];
      if row.pkname == "" then kids
      else
        var p := Owner(rows, row.pkname).value;
        kids[p := kids[p] + [DeviceOf(row, kids[i - 1])]]
  }

  // The rows without a parent, in order, with the children collected by then.
  function Roots(rows: seq<Row>, kids: seq<seq<Device>>): seq<Device>
    requires |kids| == |rows|
  {
    if rows == [] then []
    else
      var n := |rows| - 1;
      Roots(rows[..n], kids[..n]) + if rows[n].pkname == "" then [DeviceOf(rows[n], kids[n])] else []
  }

  class Node {
    const row: Row
    var children: seq<Device>

    constructor (row: Row)
      ensures this.row == row && children == []
    {
      this.row, children := row, [];
    }

    // A copy; later changes of the node do not reach it.
    function Copy(): Device
      reads this
    {
      DeviceOf(row, children)
    }
  }

  ghost predicate NodesOf(nodes: seq<Node>, rows: seq<Row>)
    reads nodes
  {
    && |nodes| == |rows|
    && (forall i | 0 <= i < |nodes| :: nodes[i].row == rows[i])
    && (forall i, j | 0 <= i < j < |nodes| :: nodes[i] != nodes[j])
  }

  // The parsing and tree-building part of lsblk.
  method Lsblk(lines: seq<seq<string>>) returns (r: Result<seq<Device>, LsblkError>)
    ensures r.Ok? <==> Parsed(lines).Ok? && Resolves(Parsed(lines).value)
    ensures r.Ok? ==> r.value == Roots(Parsed(lines).value, Rebuilt(Parsed(lines).value, |Parsed(lines).value|))
    ensures Parsed(lines).Err? ==> r == Err(Parsed(lines).error)
    ensures r.Err? && Parsed(lines).Ok? ==>
              r.error.ParentNotFound? && r.error.pkname != "" && Owner(Parsed(lines).value, r.error.pkname).None?
  {
    var parsed := Parse(lines);
    if parsed.Err? {
      return Err(parsed.error);
    }
    var rows := parsed.value;
    var nodes, byName := MakeNodes(rows);
    var missing := Link(rows, nodes, byName);
    if missing.Some? {
      return Err(ParentNotFound(missing.value));
    }
    var roots := CollectRoots(rows, nodes, Rebuilt(rows, |rows|));
    return Ok(roots);
  }

  method MakeNodes(rows: seq<Row>) returns (nodes: seq<Node>, byName: map<string, Node>)
    ensures NodesOf(nodes, rows)
    ensures forall j | 0 <= j < |nodes| :: fresh(nodes[j]) && nodes[j].children == []
    ensures forall k :: (if k in byName then Some(byName[k]) else None) == NodeFor(nodes, rows, k)
  {
    nodes, byName := [], map[];
    for i := 0 to |rows|
      invariant NodesOf(nodes, rows[..i])
      invariant forall j | 0 <= j < i :: fresh(nodes[j]) && nodes[j].children == []
      invariant forall k :: (if k in byName then Some(byName[k]) else None) == NodeFor(nodes, rows[..i], k)
    {
      assert rows[..i + 1][..i] == rows[..i];
      var node := new Node(rows[i]);
      nodes := nodes + [node];
      byName := byName[rows[i].kname := node];
    }
    assert rows[..|rows|] == rows;
  }

  ghost function NodeFor(nodes: seq<Node>, rows: seq<Row>, kname: string): Option<Node>
    requires |nodes| == |rows|
  {
    match Owner(rows, kname)
    case None => None
    case Some(p) => Some(nodes[p])
  }

  method Parse(lines: seq<seq<string>>) returns (r: Result<seq<Row>, LsblkError>)
    ensures r == Parsed(lines)
  {
    var rows: seq<Row> := [];
    for i := 0 to |lines|
      invariant Parsed(lines[..i]) == Ok(rows)
    {
      var c := lines[i];
      assert lines[..i + 1][..i] == lines[..i];
      if |c| < 7 {
        ParseStops(lines, i + 1);
        return Err(if |c| < 5 then InvalidOutput else IndexPanic);
      }
      rows := rows + [Row(c[0], c[1], c[2], c[3], c[4], c[5], c[6])];
    }
    assert lines[..|lines|] == lines;
    return Ok(rows);
  }

  lemma {:induction false} ParseStops(lines: seq<seq<string>>, i: nat)
    requires i <= |lines| && Parsed(lines[..i]).Err?
    ensures Parsed(lines) == Parsed(lines[..i])
    decreases |lines| - i
  {
    if i < |lines| {
      assert lines[..i + 1][..i] == lines[..i];
      ParseStops(lines, i + 1);
    } else {
      assert lines[..i] == lines;
    }
  }

  // Hands every row's device to its parent; fails at the first parent that is not there.
  method Link(rows: seq<Row>, nodes: seq<Node>, byName: map<string, Node>) returns (missing: Option<string>)
    requires NodesOf(nodes, rows) && forall j | 0 <= j < |nodes| :: nodes[j].children == []
    requires forall k :: (if k in byName then Some(byName[k]) else None) == NodeFor(nodes, rows, k)
    modifies nodes
    ensures missing.None? <==> Resolves(rows)
    ensures missing.None? ==> Holding(nodes, Rebuilt(rows, |rows|))
    ensures missing.Some? ==> missing.value != "" && Owner(rows, missing.value).None?
  {
    hide Owner, Rebuilt;
    if Resolves(rows) {
      NothingRebuilt(rows);
    }
    for i := 0 to |rows|
      invariant forall j | 0 <= j < i && rows[j].pkname != "" :: Owner(rows, rows[j].pkname).Some?
      invariant Resolves(rows) ==> Holding(nodes, Rebuilt(rows, i))
    {
      var pkname := rows[i].pkname;
      if Resolves(rows) {
        RebuiltNext(rows, i);
      }
      if pkname == "" {
        continue;
      }
      assert (if pkname in byName then Some(byName[pkname]) else None) == NodeFor(nodes, rows, pkname);
      if pkname !in byName {
        return Some(pkname);
      }
      var parent := byName[pkname];
      parent.children := parent.children + [nodes[i].Copy()];
    }
    return None;
  }

  ghost predicate Holding(nodes: seq<Node>, kids: seq<seq<Device>>)
    reads nodes
  {
    |nodes| == |kids| && forall j | 0 <= j < |nodes| :: nodes[j].children == kids[j]
  }

  lemma NothingRebuilt(rows: seq<Row>)
    requires Resolves(rows)
    ensures forall j | 0 <= j < |rows| :: Rebuilt(rows, 0)[j] == []
  {
  }

  lemma RebuiltNext(rows: seq<Row>, i: nat)
    requires Resolves(rows) && i < |rows|
    ensures var kids, row := Rebuilt(rows, i), rows[i];
            Rebuilt(rows, i + 1) ==
            if row.pkname == "" then kids
            else var p := Owner(rows, row.pkname).value; kids[p := kids[p] + [DeviceOf(row, kids[i])]]
  {
  }

  // Keeps the devices without a parent.
  method CollectRoots(rows: seq<Row>, nodes: seq<Node>, ghost kids: seq<seq<Device>>) returns (roots: seq<Device>)
    requires NodesOf(nodes, rows) && Holding(nodes, kids)
    ensures roots == Roots(rows, kids)
  {
    roots := [];
    for i := 0 to |rows|
      invariant roots == Roots(rows[..i], kids[..i])
    {
      assert rows[..i + 1][..i] == rows[..i] && kids[..i + 1][..i] == kids[..i];
      if rows[i].pkname == "" {
        roots := roots + [nodes[i].Copy()];
      }
    }
    assert rows[..|rows|] == rows && kids[..|rows|] == kids;
  }

  // ---- the choice ----

  datatype ChoiceError = NotExactlyOne | NotShared | NoDevice | NotMpath

  ghost predicate Agree(devices: seq<Device>) {
    && (forall d | d in devices :: |d.children| == 1)
    && (forall d, e | d in devices && e in devices :: d.children[0].name == e.children[0].name)
  }

  ghost predicate TreeChoice(devices: seq<Device>, m: string) {
    devices != [] && Agree(devices) && Alike(devices[|devices| - 1].children[0], m, "mpath")
  }

  // Shows the given name and type.
  predicate Alike(d: Device, name: string, typ: string) {
    d.name == name && d.typ == typ
  }

  method GetMultipathDevice(devices: seq<Device>) returns (r: Result<Device, ChoiceError>)
    ensures r == Err(NoDevice) <==> devices == []
    ensures r.Ok? || r == Err(NotMpath) <==> devices != [] && Agree(devices)
    ensures devices != [] && Agree(devices) ==>
              var m := devices[|devices| - 1].children[0];
              r == if m.typ == "mpath" then Ok(m) else Err(NotMpath)
    ensures forall m :: r.Ok? && r.value.name == m <==> TreeChoice(devices, m)
    ensures r == Err(NotExactlyOne) ==> exists d | d in devices :: |d.children| != 1
    ensures r == Err(NotShared) ==> exists d, e | d in devices && e in devices ::
              |d.children| == 1 && |e.children| == 1 && d.children[0].name != e.children[0].name
  {
    var chosen: Option<Device> := None;
    for i := 0 to |devices|
      invariant chosen.None? <==> i == 0
      invariant forall j | 0 <= j < i :: |devices[j].children| == 1 && devices[j].children[0].name == chosen.value.name
      invariant i > 0 ==> chosen.value == devices[i - 1].children[0]
    {
      var device := devices[i];
      if |device.children| != 1 {
        return Err(NotExactlyOne);
      }
      if chosen.Some? && device.children[0].name != chosen.value.name {
        assert devices[i - 1] in devices;
        return Err(NotShared);
      }
      chosen := Some(device.children[0]);
    }
    if chosen.None? {
      return Err(NoDevice);
    }
    assert Agree(devices);
    return if chosen.value.typ == "mpath" then Ok(chosen.value) else Err(NotMpath);
  }

  // ---- the flat reading of the rows ----

  predicate IsRoot(row: Row) {
    row.pkname == ""
  }

  // The rows that name a kernel name as their parent.
  function Kids(rows: seq<Row>, kname: string): seq<Row> {
    if rows == [] then []
    else
      var n := |rows| - 1;
      Kids(rows[..n], kname) + if rows[n].pkname != "" && rows[n].pkname == kname then [rows[n]] else []
  }

  // No other row has the kernel name of a root.
  ghost predicate RootNamesUnique(rows: seq<Row>) {
    forall i, j | 0 <= i < |rows| && 0 <= j < |rows| && i != j && IsRoot(rows[i]) :: rows[j].kname != rows[i].kname
  }

  ghost predicate LastRoot(rows: seq<Row>, i: int) {
    0 <= i < |rows| && IsRoot(rows[i]) && forall j | i < j < |rows| :: !IsRoot(rows[j])
  }

  // There is a root, each root has exactly one child row, all of them name m, and that of the last root has type mpath.
  ghost predicate FlatChoice(rows: seq<Row>, m: string) {
    && (exists i :: LastRoot(rows, i))
    && (forall root | root in rows && IsRoot(root) ::
        |Kids(rows, root.kname)| == 1 && Kids(rows, root.kname)[0].name == m)
    && (forall i | LastRoot(rows, i) :: Kids(rows, rows[i].kname)[0].typ == "mpath")
  }

  ghost predicate AllAlike(ds: seq<Device>, rows: seq<Row>) {
    |ds| == |rows| && forall i | 0 <= i < |ds| :: Alike(ds[i], rows[i].name, rows[i].typ)
  }

  // A root collects exactly the rows naming it; how deep their own children go does not matter.
  lemma {:induction false} RootCollectsKids(rows: seq<Row>, i: nat, root: nat)
    requires Resolves(rows) && RootNamesUnique(rows) && i <= |rows|
    requires root < |rows| && IsRoot(rows[root])
    ensures AllAlike(Rebuilt(rows, i)[root], Kids(rows[..i], rows[root].kname))
  {
    if i > 0 {
      RootCollectsKids(rows, i - 1, root);
      assert rows[..i][..i - 1] == rows[..i - 1];
      var row := rows[i - 1];
      if row.pkname != "" {
        var p := Owner(rows, row.pkname).value;
        OwnerIsLast(rows, row.pkname);
        assert p == root <==> row.pkname == rows[root].kname;
      }
    }
  }

  lemma {:induction false} RootsAre(rows: seq<Row>, kids: seq<seq<Device>>)
    requires |kids| == |rows|
    ensures forall d :: d in Roots(rows, kids) <==>
            exists i | 0 <= i < |rows| :: IsRoot(rows[i]) && d == DeviceOf(rows[i], kids[i])
  {
    hide DeviceOf;
    if rows != [] {
      var n := |rows| - 1;
      RootsAre(rows[..n], kids[..n]);
    }
  }

  lemma {:induction false} LastRootComesLast(rows: seq<Row>, kids: seq<seq<Device>>)
    requires |kids| == |rows|
    ensures Roots(rows, kids) != [] <==> exists i :: LastRoot(rows, i)
    ensures forall i | LastRoot(rows, i) ::
              Roots(rows, kids) != [] && Roots(rows, kids)[|Roots(rows, kids)| - 1] == DeviceOf(rows[i], kids[i])
  {
    hide DeviceOf;
    if rows != [] {
      var n := |rows| - 1;
      LastRootComesLast(rows[..n], kids[..n]);
      LastRootOfFront(rows);
    }
  }

  lemma LastRootOfFront(rows: seq<Row>)
    requires rows != []
    ensures var n := |rows| - 1;
            if IsRoot(rows[n]) then LastRoot(rows, n) && forall i | LastRoot(rows, i) :: i == n
            else forall i :: LastRoot(rows, i) <==> LastRoot(rows[..n], i)
  {
  }

  // Where every parent resolves and root names are unique, the tree rebuild and the choice together read the rows flat.
  lemma TreeChoiceIsFlat(rows: seq<Row>, m: string)
    requires Resolves(rows) && RootNamesUnique(rows)
    ensures TreeChoice(Roots(rows, Rebuilt(rows, |rows|)), m) <==> FlatChoice(rows, m)
  {
    hide Rebuilt, Roots, Resolves, RootNamesUnique, Kids;
    var kids := Rebuilt(rows, |rows|);
    RootsAre(rows, kids);
    LastRootComesLast(rows, kids);
    assert rows[..|rows|] == rows;
    forall i | 0 <= i < |rows| && IsRoot(rows[i]) ensures AllAlike(kids[i], Kids(rows, rows[i].kname)) {
      RootCollectsKids(rows, |rows|, i);
    }
    if FlatChoice(rows, m) {
      FlatGivesTree(rows, kids, Roots(rows, kids), m);
    }
    if TreeChoice(Roots(rows, kids), m) {
      TreeGivesFlat(rows, kids, Roots(rows, kids), m);
    }
  }

  // devices are the roots of rows, each with children alike to the rows naming it.
  ghost predicate RootDevices(rows: seq<Row>, kids: seq<seq<Device>>, devices: seq<Device>) {
    && |kids| == |rows|
    && (forall d :: d in devices <==> exists i | 0 <= i < |rows| :: IsRoot(rows[i]) && d == DeviceOf(rows[i], kids[i]))
    && (devices != [] <==> exists i :: LastRoot(rows, i))
    && (forall i | LastRoot(rows, i) :: devices != [] && devices[|devices| - 1] == DeviceOf(rows[i], kids[i]))
    && (forall i | 0 <= i < |rows| && IsRoot(rows[i]) :: AllAlike(kids[i], Kids(rows, rows[i].kname)))
  }

  lemma FlatGivesTree(rows: seq<Row>, kids: seq<seq<Device>>, devices: seq<Device>, m: string)
    requires RootDevices(rows, kids, devices) && FlatChoice(rows, m)
    ensures TreeChoice(devices, m)
  {
    hide Kids;
    forall d | d in devices ensures |d.children| == 1 && d.children[0].name == m {
      var i :| 0 <= i < |rows| && IsRoot(rows[i]) && d == DeviceOf(rows[i], kids[i]);
      assert rows[i] in rows;
    }
    var last :| LastRoot(rows, last);
    assert devices[|devices| - 1] in devices;
  }

  lemma TreeGivesFlat(rows: seq<Row>, kids: seq<seq<Device>>, devices: seq<Device>, m: string)
    requires RootDevices(rows, kids, devices) && TreeChoice(devices, m)
    ensures FlatChoice(rows, m)
  {
    hide Kids;
    var last := devices[|devices| - 1];
    forall row | row in rows && IsRoot(row) ensures |Kids(rows, row.kname)| == 1 && Kids(rows, row.kname)[0].name == m {
      var i :| 0 <= i < |rows| && rows[i] == row;
      assert DeviceOf(rows[i], kids[i]) in devices && last in devices;
    }
  }

  // ---- order ----

  lemma {:induction false} KidsCount(rows: seq<Row>, kname: string, r: Row)
    ensures multiset(Kids(rows, kname))[r] == if r.pkname != "" && r.pkname == kname then multiset(rows)[r] else 0
  {
    if rows != [] {
      var n := |rows| - 1;
      KidsCount(rows[..n], kname, r);
      LastCount(rows, r);
      AddedCount(Kids(rows[..n], kname), rows[n], r);
    }
  }

  lemma AddedCount(rows: seq<Row>, added: Row, r: Row)
    ensures multiset(rows + [added])[r] == multiset(rows)[r] + if added == r then 1 else 0
    ensures rows + [] == rows
  {
  }

  lemma LastCount(rows: seq<Row>, r: Row)
    requires rows != []
    ensures multiset(rows)[r] == multiset(rows[..|rows| - 1])[r] + if rows[|rows| - 1] == r then 1 else 0
  {
    assert rows == rows[..|rows| - 1] + [rows[|rows| - 1]];
  }

  lemma KidsPermute(a: seq<Row>, b: seq<Row>, kname: string)
    requires multiset(a) == multiset(b)
    ensures multiset(Kids(a, kname)) == multiset(Kids(b, kname))
    ensures |Kids(a, kname)| == |Kids(b, kname)|
    ensures |Kids(a, kname)| == 1 ==> Kids(a, kname) == Kids(b, kname)
  {
    hide Kids;
    forall r ensures multiset(Kids(a, kname))[r] == multiset(Kids(b, kname))[r] {
      KidsCount(a, kname, r);
      KidsCount(b, kname, r);
    }
    SamePermutation(Kids(a, kname), Kids(b, kname));
  }

  lemma SamePermutation(a: seq<Row>, b: seq<Row>)
    requires multiset(a) == multiset(b)
    ensures |a| == |b| && (|a| == 1 ==> a == b)
    ensures forall row :: row in a <==> row in b
  {
    assert |multiset(a)| == |a| && |multiset(b)| == |b|;
    assert forall row :: row in multiset(a) <==> row in multiset(b);
    forall row ensures row in a <==> row in b {
      assert row in a <==> row in multiset(a);
      assert row in b <==> row in multiset(b);
    }
    if |a| == 1 {
      assert a[0] in multiset(b) && a[0] in b;
    }
  }

  // Equal names show equal types, as the rows of one device under several parents do.
  ghost predicate TypedByName(rows: seq<Row>) {
    forall r, q | r in rows && q in rows && r.name == q.name :: r.typ == q.typ
  }

  lemma {:induction false} KidsAreRows(rows: seq<Row>, kname: string)
    ensures forall r | r in Kids(rows, kname) :: r in rows
  {
    if rows != [] {
      KidsAreRows(rows[..|rows| - 1], kname);
    }
  }

  lemma {:induction false} SomeLastRoot(rows: seq<Row>)
    ensures (exists i :: LastRoot(rows, i)) <==> exists row :: row in rows && IsRoot(row)
  {
    if rows != [] {
      var n := |rows| - 1;
      var front := rows[..n];
      SomeLastRoot(front);
      if IsRoot(rows[n]) {
        assert LastRoot(rows, n);
      } else {
        if i :| LastRoot(front, i) {
          assert LastRoot(rows, i);
        }
        if row :| row in rows && IsRoot(row) {
          assert row in front;
        }
      }
    }
  }

  // The roots in the order they are listed.
  function RootRows(rows: seq<Row>): seq<Row> {
    if rows == [] then []
    else
      var n := |rows| - 1;
      RootRows(rows[..n]) + if IsRoot(rows[n]) then [rows[n]] else []
  }

  lemma {:induction false} LastRootIsLast(rows: seq<Row>)
    ensures forall i | LastRoot(rows, i) :: RootRows(rows) != [] && RootRows(rows)[|RootRows(rows)| - 1] == rows[i]
  {
    if rows != [] {
      var n := |rows| - 1;
      var front := rows[..n];
      LastRootIsLast(front);
      forall i | LastRoot(rows, i) ensures RootRows(rows) != [] && RootRows(rows)[|RootRows(rows)| - 1] == rows[i] {
        if i < n {
          assert LastRoot(front, i);
        }
      }
    }
  }

  // As long as the roots keep their order, the rows can come in any order.
  lemma RowOrderDoesNotMatter(a: seq<Row>, b: seq<Row>, m: string)
    requires multiset(a) == multiset(b) && RootRows(a) == RootRows(b)
    ensures FlatChoice(a, m) <==> FlatChoice(b, m)
  {
    SamePermutation(a, b);
    if FlatChoice(a, m) {
      SameRootsStillChosen(a, b, m);
    }
    if FlatChoice(b, m) {
      SameRootsStillChosen(b, a, m);
    }
  }

  lemma SameRootsStillChosen(a: seq<Row>, b: seq<Row>, m: string)
    requires multiset(a) == multiset(b) && RootRows(a) == RootRows(b) && FlatChoice(a, m)
    requires forall row :: row in a <==> row in b
    ensures FlatChoice(b, m)
  {
    hide Kids, RootRows;
    SomeLastRoot(a);
    SomeLastRoot(b);
    LastRootIsLast(a);
    LastRootIsLast(b);
    var i :| LastRoot(a, i);
    assert a[i] in a;
    forall root | root in b && IsRoot(root)
      ensures Kids(b, root.kname) == Kids(a, root.kname) && |Kids(b, root.kname)| == 1
      ensures Kids(b, root.kname)[0].name == m
    {
      KidsPermute(a, b, root.kname);
    }
    forall k | LastRoot(b, k) ensures Kids(b, b[k].kname)[0].typ == "mpath" {
      assert b[k] == a[i] && b[k] in b;
    }
  }

  // The roots can change places too, if rows of one name show one type.
  lemma OrderDoesNotMatter(a: seq<Row>, b: seq<Row>, m: string)
    requires multiset(a) == multiset(b) && TypedByName(a)
    ensures FlatChoice(a, m) <==> FlatChoice(b, m)
  {
    SamePermutation(a, b);
    if FlatChoice(a, m) {
      StillChosen(a, b, m);
    }
    if FlatChoice(b, m) {
      StillChosen(b, a, m);
    }
  }

  lemma StillChosen(a: seq<Row>, b: seq<Row>, m: string)
    requires multiset(a) == multiset(b) && TypedByName(a) && FlatChoice(a, m)
    requires forall row :: row in a <==> row in b
    ensures FlatChoice(b, m)
  {
    hide Kids;
    SomeLastRoot(a);
    SomeLastRoot(b);
    var i :| LastRoot(a, i);
    KidsAreRows(a, a[i].kname);
    var first := Kids(a, a[i].kname)[0];
    assert a[i] in a && first in a;
    forall root | root in b && IsRoot(root)
      ensures |Kids(b, root.kname)| == 1 && Kids(b, root.kname)[0].name == m && Kids(b, root.kname)[0].typ == "mpath"
    {
      KidsPermute(a, b, root.kname);
      KidsAreRows(a, root.kname);
      assert Kids(a, root.kname)[0] in a;
    }
  }

  // ---- order, through the tree ----

  lemma ResolvesIff(rows: seq<Row>)
    ensures Resolves(rows) <==>
            forall row | row in rows && row.pkname != "" :: exists p :: p in rows && p.kname == row.pkname
  {
    hide Owner;
    forall row | row in rows ensures Owner(rows, row.pkname).Some? <==> exists p :: p in rows && p.kname == row.pkname {
      OwnerIsLast(rows, row.pkname);
    }
    if Resolves(rows) {
      forall row | row in rows && row.pkname != "" ensures exists p :: p in rows && p.kname == row.pkname {
        var i :| 0 <= i < |rows| && rows[i] == row;
      }
    }
  }

  lemma RootNamesUniqueIff(rows: seq<Row>)
    ensures RootNamesUnique(rows) <==>
            forall root, row | root in rows && IsRoot(root) && row in rows ::
              multiset(rows)[root] == 1 && (row.kname == root.kname ==> row == root)
  {
    if RootNamesUnique(rows) {
      forall root, row | root in rows && IsRoot(root) && row in rows
        ensures multiset(rows)[root] == 1 && (row.kname == root.kname ==> row == root)
      {
        if multiset(rows)[root] >= 2 {
          var i, j := TwoPlaces(rows, root);
        }
        var i :| 0 <= i < |rows| && rows[i] == root;
        var j :| 0 <= j < |rows| && rows[j] == row;
      }
    } else {
      var i, j :| 0 <= i < |rows| && 0 <= j < |rows| && i != j && IsRoot(rows[i]) && rows[j].kname == rows[i].kname;
      assert rows[i] in rows && rows[j] in rows;
      CountedTwice(rows, i, j);
    }
  }

  lemma {:induction false} TwoPlaces(rows: seq<Row>, r: Row) returns (i: nat, j: nat)
    requires multiset(rows)[r] >= 2
    ensures i < j < |rows| && rows[i] == rows[j] == r
  {
    var n := |rows| - 1;
    LastCount(rows, r);
    if rows[n] == r {
      var front := rows[..n];
      CountedIsIn(front, r);
      i :| 0 <= i < |front| && front[i] == r;
      j := n;
    } else {
      i, j := TwoPlaces(rows[..n], r);
    }
  }

  lemma CountedIsIn(rows: seq<Row>, r: Row)
    requires multiset(rows)[r] > 0
    ensures r in rows
  {
  }

  lemma CountedTwice(rows: seq<Row>, i: nat, j: nat)
    requires i < |rows| && j < |rows| && i != j
    ensures rows[i] == rows[j] ==> multiset(rows)[rows[i]] >= 2
  {
    var k := if i < j then j else i;
    var head, tail := rows[..k], rows[k..];
    assert rows == head + tail && rows[k] == tail[0] && rows[if i < j then i else j] in head;
    assert multiset(rows) == multiset(head) + multiset(tail);
  }

  // Rows in another order still resolve and keep their root names apart, so the whole rebuild chooses the same device.
  lemma TreeOrderDoesNotMatter(a: seq<Row>, b: seq<Row>, m: string)
    requires multiset(a) == multiset(b) && Resolves(a) && RootNamesUnique(a)
    requires RootRows(a) == RootRows(b) || TypedByName(a)
    ensures Resolves(b) && RootNamesUnique(b)
    ensures TreeChoice(Roots(a, Rebuilt(a, |a|)), m) <==> TreeChoice(Roots(b, Rebuilt(b, |b|)), m)
  {
    hide Resolves, RootNamesUnique, FlatChoice, TreeChoice, Rebuilt, Roots, RootRows;
    SamePermutation(a, b);
    ResolvesIff(a);
    ResolvesIff(b);
    RootNamesUniqueIff(a);
    RootNamesUniqueIff(b);
    TreeChoiceIsFlat(a, m);
    TreeChoiceIsFlat(b, m);
    if RootRows(a) == RootRows(b) {
      RowOrderDoesNotMatter(a, b, m);
    } else {
      OrderDoesNotMatter(a, b, m);
    }
  }

  // getVolumeMountPath: lines is the output of lsblk, None if it failed; appears tells whether the path comes up.
  method GetVolumeMountPath(paths: seq<string>, lines: Option<seq<seq<string>>>, appears: bool) returns (path: string)
    ensures |paths| == 0 || !appears ==> path == ""
    ensures |paths| == 1 && appears ==> path == paths[0]
    ensures |paths| > 1 && path != "" ==> lines.Some? && Parsed(lines.value).Ok? && Resolves(Parsed(lines.value).value)
    ensures |paths| > 1 && appears && lines.Some? && Parsed(lines.value).Ok? && Resolves(Parsed(lines.value).value) ==>
              var rows := Parsed(lines.value).value;
              var roots := Roots(rows, Rebuilt(rows, |rows|));
              && (forall m | TreeChoice(roots, m) :: path == "/dev/mapper/" + m)
              && (path != "" ==> exists m :: TreeChoice(roots, m) && path == "/dev/mapper/" + m)
    ensures |paths| > 1 && appears && lines.Some? && Parsed(lines.value).Ok? && Resolves(Parsed(lines.value).value)
            && RootNamesUnique(Parsed(lines.value).value) ==>
              var rows := Parsed(lines.value).value;
              && (forall m | FlatChoice(rows, m) :: path == "/dev/mapper/" + m)
              && (path != "" ==> exists m :: FlatChoice(rows, m) && path == "/dev/mapper/" + m)
  {
    hide Parsed, Resolves, RootNamesUnique, Rebuilt, Roots, FlatChoice, TreeChoice;
    path := "";
    if |paths| > 1 {
      if lines.None? {
        return "";
      }
      var devices := Lsblk(lines.value);
      if devices.Err? {
        return "";
      }
      var device := GetMultipathDevice(devices.value);
      ghost var rows := Parsed(lines.value).value;
      if RootNamesUnique(rows) {
        forall m ensures device.Ok? && device.value.name == m <==> FlatChoice(rows, m) {
          TreeChoiceIsFlat(rows, m);
        }
      }
      if device.Err? {
        return "";
      }
      path := "/dev/mapper/" + device.value.name;
    } else if |paths| == 1 {
      path := paths[0];
    }
    if !appears {
      path := "";
    }
  }
}
