/**
  The reachability matrix: recording cells, dropping what no longer exists, and deriving who cannot
  reach a node that someone else reached.
*/
module Matrix {
  import opened Wrappers
  import opened SortedLists
  import opened Verdicts
  import opened Streaks

  type Row = map<string, Cell>

  /** A cell the last pass refreshed and that says something. */
  predicate Evidence(c: Cell) {
    !c.verdict.VerdictUnknown? && !c.stale
  }

  predicate LocalUp(cells: seq<Cell>) {
    exists i :: 0 <= i < |cells| && Evidence(cells[i]) && cells[i].localStatus.Online?
  }

  predicate AgentUp(cells: seq<Cell>) {
    exists i :: 0 <= i < |cells| && Evidence(cells[i]) && cells[i].agentStatus.Online?
  }

  datatype NodeRow = NodeRow(node: string, cells: seq<Cell>, alive: bool, localUnreachable: bool, localSince: Time, localStreak: nat)

  /** deriveRow: a vantage point that failed on a node another one reached has a problem of its own,
      the checker included. */
  method DeriveRow(node: string, cells: seq<Cell>) returns (row: NodeRow)
    requires forall i :: 0 <= i < |cells| ==> !cells[i].unreachable && cells[i].since != 0
    ensures row.node == node
    ensures row.alive <==> LocalUp(cells) || AgentUp(cells)
    ensures IsMarked(row, cells)
    ensures row.localUnreachable <==> row.alive && !LocalUp(cells)
    ensures if row.localUnreachable then LongestLocal(row, cells) else row.localStreak == 0 && row.localSince == 0
  {
    var localUp, agentUp := WhoReached(cells);
    row := NodeRow(node, cells, agentUp || localUp, false, 0, 0);
    if !row.alive {
      return;
    }
    for i := 0 to |cells|
      invariant row.node == node && row.alive && Marked(row, cells, i) && LocalSeen(row, cells[..i], localUp)
    {
      row := MarkOne(row, cells, i, localUp);
    }
    assert cells[..|cells|] == cells;
  }

  /** The checker's own failure lasts as long as its longest observation: the highest streak, the earliest start. */
  predicate LongestLocal(row: NodeRow, cells: seq<Cell>) {
    && (exists i :: 0 <= i < |cells| && Evidence(cells[i]) && cells[i].streak == row.localStreak)
    && (exists i :: 0 <= i < |cells| && Evidence(cells[i]) && cells[i].since == row.localSince)
    && (forall i :: 0 <= i < |cells| && Evidence(cells[i]) ==> cells[i].streak <= row.localStreak && row.localSince <= cells[i].since)
  }

  /** The first n cells of the row are marked, the others are as they were. */
  predicate Marked(row: NodeRow, cells: seq<Cell>, n: nat) {
    && |row.cells| == |cells|
    && forall k :: 0 <= k < |cells| ==>
         row.cells[k] == if k < n then cells[k].(unreachable := Evidence(cells[k]) && !cells[k].agentStatus.Online?) else cells[k]
  }

  method MarkOne(before: NodeRow, cells: seq<Cell>, i: nat, localUp: bool) returns (row: NodeRow)
    requires i < |cells| && Marked(before, cells, i) && LocalSeen(before, cells[..i], localUp) && !cells[i].unreachable && cells[i].since != 0
    requires Evidence(cells[i]) && cells[i].localStatus.Online? ==> localUp
    ensures row.node == before.node && row.alive == before.alive
    ensures Marked(row, cells, i + 1) && LocalSeen(row, cells[..i + 1], localUp)
  {
    row := before;
    var c := cells[i];
    LocalSeenOneMore(row, cells, i, localUp);
    if Evidence(c) {
      if !localUp && !c.localStatus.Online? {
        row := NoteLocal(row, c);
      }
      row := row.(cells := row.cells[i := c.(unreachable := !c.agentStatus.Online?)]);
    }
  }

  method WhoReached(cells: seq<Cell>) returns (localUp: bool, agentUp: bool)
    ensures localUp == LocalUp(cells) && agentUp == AgentUp(cells)
  {
    localUp, agentUp := false, false;
    for i := 0 to |cells|
      invariant localUp <==> exists k :: 0 <= k < i && Evidence(cells[k]) && cells[k].localStatus.Online?
      invariant agentUp <==> exists k :: 0 <= k < i && Evidence(cells[k]) && cells[k].agentStatus.Online?
    {
      if Evidence(cells[i]) {
        localUp := localUp || cells[i].localStatus.Online?;
        agentUp := agentUp || cells[i].agentStatus.Online?;
      }
    }
  }

  /** The checker failed on a node an agent reached: keep the longest-running observation of that. */
  function NoteLocal(row: NodeRow, c: Cell): NodeRow {
    row.(localUnreachable := true,
         localStreak := if c.streak > row.localStreak then c.streak else row.localStreak,
         localSince := if row.localSince == 0 || c.since < row.localSince then c.since else row.localSince)
  }

  /** What the row says about the checker, as far as these cells have been seen. */
  predicate LocalSeen(row: NodeRow, cells: seq<Cell>, localUp: bool) {
    && (row.localUnreachable <==> !localUp && exists i :: 0 <= i < |cells| && Evidence(cells[i]))
    && (if row.localUnreachable then LongestLocal(row, cells) && row.localSince != 0 else row.localStreak == 0 && row.localSince == 0)
  }

  lemma LocalSeenOneMore(row: NodeRow, cells: seq<Cell>, n: nat, localUp: bool)
    requires n < |cells| && LocalSeen(row, cells[..n], localUp)
    requires (Evidence(cells[n]) && cells[n].localStatus.Online? ==> localUp) && cells[n].since != 0
    ensures LocalSeen(if Evidence(cells[n]) && !localUp then NoteLocal(row, cells[n]) else row, cells[..n + 1], localUp)
  {
    var more := cells[..n + 1];
    assert more[n] == cells[n];
    forall i | 0 <= i < n ensures more[i] == cells[..n][i] {
    }
    if row.localUnreachable {
      var i :| 0 <= i < n && Evidence(cells[..n][i]) && cells[..n][i].streak == row.localStreak;
      var j :| 0 <= j < n && Evidence(cells[..n][j]) && cells[..n][j].since == row.localSince;
      assert more[i].streak == row.localStreak && more[j].since == row.localSince;
    }
  }

  // ----- findings -----

  /** agent is "" when the vantage point is the checker. */
  datatype Finding = Finding(node: string, agent: string, local: bool, status: Status, since: Time, streak: nat, confirmed: bool)

  /** Confirmed ones first, then the newest, then by node and agent. */
  function FindingOrder(): (Finding, Finding) -> bool {
    (f: Finding, g: Finding) =>
      if f.confirmed != g.confirmed then f.confirmed
      else if f.since != g.since then f.since > g.since
      else if f.node != g.node then Before(f.node, g.node)
      else Before(f.agent, g.agent)
  }

  /** No two of these are about the same node and vantage point. */
  ghost predicate Keyed(findings: set<Finding>) {
    forall f, g :: f in findings && g in findings && f.node == g.node && f.agent == g.agent ==> f == g
  }

  lemma FindingOrderOrders(findings: set<Finding>)
    requires Keyed(findings)
    ensures Orders(FindingOrder(), findings)
  {
    var less := FindingOrder();
    forall f | f in findings ensures !less(f, f) {
      BeforeIsIrreflexive(f.agent);
    }
    forall f, g | f in findings && g in findings && f != g ensures less(f, g) || less(g, f) {
      BeforeIsTotal(f.node, g.node);
      BeforeIsTotal(f.agent, g.agent);
    }
    forall f, g, h | f in findings && g in findings && h in findings && less(f, g) && less(g, h) ensures less(f, h) {
      if f.node == g.node == h.node {
        if Before(f.agent, g.agent) && Before(g.agent, h.agent) {
          BeforeIsTransitive(f.agent, g.agent, h.agent);
        }
      } else if Before(f.node, g.node) && Before(g.node, h.node) {
        BeforeIsTransitive(f.node, g.node, h.node);
        BeforeIsIrreflexive(f.node);
      }
    }
  }

  /** The failure of an agent on a node someone reached. */
  function AgentFinding(node: string, c: Cell): Finding {
    Finding(node, c.agent, false, c.agentStatus, c.since, c.streak, Confirmed(c))
  }

  predicate IsLocalFinding(f: Finding, row: NodeRow) {
    && row.localUnreachable && f.node == row.node && f.agent == "" && f.local
    && f.since == row.localSince && f.streak == row.localStreak && f.confirmed == (row.localStreak >= CONFIRM_SWEEPS)
    && exists i :: 0 <= i < |row.cells| && Evidence(row.cells[i]) && row.cells[i].localStatus == f.status
  }

  predicate IsAgentFinding(f: Finding, row: NodeRow) {
    exists i :: 0 <= i < |row.cells| && row.cells[i].unreachable && f == AgentFinding(row.node, row.cells[i])
  }

  /** The findings of one row: the checker's at most once, and every failing agent's. */
  ghost predicate AreFindings(found: set<Finding>, row: NodeRow) {
    && (forall f :: f in found ==> IsLocalFinding(f, row) || IsAgentFinding(f, row))
    && (row.localUnreachable ==> exists f :: f in found && IsLocalFinding(f, row))
    && (forall i :: 0 <= i < |row.cells| && row.cells[i].unreachable ==> AgentFinding(row.node, row.cells[i]) in found)
    && Keyed(found)
  }

  ghost function OnNode(findings: seq<Finding>, node: string): set<Finding> {
    set f | f in findings && f.node == node
  }

  predicate ProperRow(row: NodeRow) {
    && (forall i, j :: 0 <= i < j < |row.cells| ==> row.cells[i].agent != row.cells[j].agent)
    && (forall i :: 0 <= i < |row.cells| ==> row.cells[i].agent != "")
    && (row.localUnreachable ==> exists i :: 0 <= i < |row.cells| && Evidence(row.cells[i]))
    && (!row.alive ==> !row.localUnreachable && forall i :: 0 <= i < |row.cells| ==> !row.cells[i].unreachable)
  }

  method LocalStatusOf(cells: seq<Cell>) returns (status: Status)
    requires exists i :: 0 <= i < |cells| && Evidence(cells[i])
    ensures exists i :: 0 <= i < |cells| && Evidence(cells[i]) && cells[i].localStatus == status
  {
    for i := 0 to |cells|
      invariant forall k :: 0 <= k < i ==> !Evidence(cells[k])
    {
      if Evidence(cells[i]) {
        return cells[i].localStatus;
      }
    }
    return NoStatus;
  }

  /** The part of Findings for one row. */
  method RowFindings(row: NodeRow) returns (found: set<Finding>)
    requires ProperRow(row)
    ensures AreFindings(found, row) && forall f :: f in found ==> f.node == row.node
  {
    found := {};
    if !row.alive {
      return;
    }
    if row.localUnreachable {
      var status := LocalStatusOf(row.cells);
      var f := Finding(row.node, "", true, status, row.localSince, row.localStreak, row.localStreak >= CONFIRM_SWEEPS);
      assert IsLocalFinding(f, row);
      found := {f};
    }
    for i := 0 to |row.cells|
      invariant FoundSoFar(found, row, i)
    {
      OneMoreFound(found, row, i);
      if row.cells[i].unreachable {
        found := found + {AgentFinding(row.node, row.cells[i])};
      }
    }
  }

  ghost predicate FoundSoFar(found: set<Finding>, row: NodeRow, i: nat) {
    && i <= |row.cells|
    && (forall f :: f in found ==> f.node == row.node && (IsLocalFinding(f, row) || (IsAgentFinding(f, row) && exists k :: 0 <= k < i && f.agent == row.cells[k].agent)))
    && (row.localUnreachable ==> exists f :: f in found && IsLocalFinding(f, row))
    && (forall k :: 0 <= k < i && row.cells[k].unreachable ==> AgentFinding(row.node, row.cells[k]) in found)
    && Keyed(found)
  }

  lemma OneMoreFound(found: set<Finding>, row: NodeRow, i: nat)
    requires ProperRow(row) && i < |row.cells| && FoundSoFar(found, row, i)
    ensures FoundSoFar(if row.cells[i].unreachable then found + {AgentFinding(row.node, row.cells[i])} else found, row, i + 1)
  {
    if row.cells[i].unreachable {
      assert IsAgentFinding(AgentFinding(row.node, row.cells[i]), row);
    }
  }

  class Matrix {
    var cells: map<string, Row>
    var generation: nat
    ghost var history: map<(string, string), seq<Sample>>

    /** The cell carries the verdict of its last record, the streak of its run of equal verdicts and
        the time the run began. */
    ghost predicate Sound(node: string, agent: string)
      requires node in cells && agent in cells[node]
      reads `cells, `history, `generation
    {
      && cells[node][agent].generation <= generation && node != "" && agent != "" && CellInv(cells[node][agent], agent)
      && (node, agent) in history && Tells(history[(node, agent)], cells[node][agent])
    }

    ghost predicate Valid()
      reads `cells, `history, `generation
    {
      forall node, agent {:trigger Sound(node, agent)} :: node in cells && agent in cells[node] ==> Sound(node, agent)
    }

    constructor ()
      ensures Valid() && cells == map[]
    {
      cells, generation, history := map[], 0, map[];
    }

    /** Record. Cells are made by CellFor; one without a time is stamped, and now is not the zero time. */
    method Record(node: string, cell: Cell, now: Time) returns (recorded: Cell)
      requires Valid() && now > 0 && cell.checkedAt >= 0 && !cell.stale && !cell.unreachable && Compared(cell)
      modifies this
      ensures Valid() && generation == old(generation)
      ensures node == "" || cell.agent == "" ==> cells == old(cells) && history == old(history) && recorded == cell
      ensures node != "" && cell.agent != "" ==>
                var at := if cell.checkedAt == 0 then now else cell.checkedAt;
                && cells == With(old(cells), node, recorded)
                && history == old(history)[(node, cell.agent) := Known(old(cells), old(history), node, cell.agent) + [Sample(cell.verdict, cell.localCheckedAt, at)]]
                && recorded == cell.(checkedAt := at, generation := generation, since := recorded.since, streak := recorded.streak)
    {
      if node == "" || cell.agent == "" {
        return cell;
      }
      recorded := cell.(checkedAt := if cell.checkedAt == 0 then now else cell.checkedAt, generation := generation);
      var previous := Previous(node, cell.agent);
      ghost var before := Known(cells, history, node, cell.agent);
      recorded := Continue(previous, recorded, before);
      Put(node, recorded, before);
    }

    /** The cell that a new one replaces. */
    method Previous(node: string, agent: string) returns (previous: Option<Cell>)
      requires Valid()
      ensures previous == if node in cells && agent in cells[node] then Some(cells[node][agent]) else None
      ensures if previous.Some? then Tells(Known(cells, history, node, agent), previous.value) && previous.value.since != 0
              else Known(cells, history, node, agent) == []
    {
      var row := if node in cells then cells[node] else map[];
      previous := if agent in row then Some(row[agent]) else None;
      if previous.Some? {
        assert Sound(node, agent);
      }
    }

    /** Since and streak of a new cell, given the one it replaces. */
    static method Continue(previous: Option<Cell>, cell: Cell, ghost before: seq<Sample>) returns (recorded: Cell)
      requires cell.checkedAt != 0
      requires if previous.Some? then Tells(before, previous.value) && previous.value.since != 0 else before == []
      ensures recorded == cell.(since := recorded.since, streak := recorded.streak) && recorded.since != 0
      ensures Tells(before + [Sample(cell.verdict, cell.localCheckedAt, cell.checkedAt)], recorded)
    {
      ghost var sample := Sample(cell.verdict, cell.localCheckedAt, cell.checkedAt);
      recorded := cell;
      if previous.Some? && previous.value.verdict == cell.verdict && previous.value.since != 0 {
        recorded := recorded.(since := previous.value.since);
        recorded := recorded.(streak :=
          if cell.localCheckedAt > previous.value.localCheckedAt then previous.value.streak + 1 else previous.value.streak);
        RepeatedRecord(before, sample, previous.value.streak, previous.value.since);
      } else {
        recorded := recorded.(since := recorded.checkedAt, streak := 1);
        FirstRecord(before, sample);
      }
    }

    method Put(node: string, c: Cell, ghost before: seq<Sample>)
      requires Valid() && node != "" && CellInv(c, c.agent) && c.agent != "" && c.generation == generation
      requires Tells(before + [Sample(c.verdict, c.localCheckedAt, c.checkedAt)], c)
      modifies this`cells, this`history
      ensures Valid()
      ensures cells == With(old(cells), node, c)
      ensures history == old(history)[(node, c.agent) := before + [Sample(c.verdict, c.localCheckedAt, c.checkedAt)]]
    {
      ghost var cells0, history0 := cells, history;
      var row := if node in cells then cells[node] else map[];
      history := history[(node, c.agent) := before + [Sample(c.verdict, c.localCheckedAt, c.checkedAt)]];
      cells := cells[node := row[c.agent := c]];
      forall n, a | n in cells && a in cells[n] ensures Sound(n, a) {
        if n != node || a != c.agent {
          assert n in cells0 && a in cells0[n] && cells[n][a] == cells0[n][a] && history[(n, a)] == history0[(n, a)] by {
            assert old(Sound(n, a));
          }
          assert old(Sound(n, a));
        }
      }
    }

    method BeginSweep()
      requires Valid()
      modifies this`generation
      ensures Valid() && generation == old(generation) + 1
      // what was recorded before belongs to another pass
      ensures forall node, agent :: node in cells && agent in cells[node] ==> cells[node][agent].generation != generation
    {
      forall node, agent | node in cells && agent in cells[node] ensures cells[node][agent].generation <= generation {
        assert Sound(node, agent);
      }
      generation := generation + 1;
      forall node, agent | node in cells && agent in cells[node] ensures Sound(node, agent) {
        assert old(Sound(node, agent));
      }
    }

    /** Retain: exactly the cells of known nodes and known agents stay, untouched. */
    method Retain(nodes: set<string>, agents: set<string>)
      requires Valid()
      modifies this`cells
      ensures Valid()
      ensures forall node :: RetainedAt(old(cells), cells, nodes, agents, node)
    {
      var left := cells.Keys;
      ghost var before := cells;
      while left != {}
        invariant left <= cells.Keys <= before.Keys
        invariant forall node :: node in left ==> cells[node] == before[node]
        invariant forall node :: node !in left ==> RetainedAt(before, cells, nodes, agents, node)
        decreases left
      {
        var node :| node in left;
        left := left - {node};
        var kept := KeepAgents(cells[node], agents);
        if node !in nodes || kept == map[] {
          cells := cells - {node};
        } else {
          cells := cells[node := kept];
        }
      }
      forall node, agent | node in cells && agent in cells[node] ensures Sound(node, agent) {
        assert RetainedAt(before, cells, nodes, agents, node);
        assert old(Sound(node, agent));
      }
    }

    /** Rows for one node: its cells in agent order, marked stale when the last pass missed them. */
    method RowOf(node: string) returns (row: NodeRow)
      requires Valid() && node in cells
      ensures ProperRow(row) && IsRow(row, node, cells[node], generation)
      // stale is what the present pass, if there was one, has not recorded again
      ensures forall i :: 0 <= i < |row.cells| ==>
                && row.cells[i].agent in cells[node]
                && (row.cells[i].stale <==> generation != 0 && cells[node][row.cells[i].agent].generation != generation)
    {
      forall agent | agent in cells[node] ensures CellInv(cells[node][agent], agent) && agent != "" {
        assert Sound(node, agent);
      }
      var list := CellList(cells[node], generation);
      row := ReadRow(node, cells[node], generation, list);
    }

    static method ReadRow(node: string, cells: Row, generation: nat, list: seq<Cell>) returns (row: NodeRow)
      requires forall agent :: agent in cells ==> CellInv(cells[agent], agent) && agent != ""
      requires IsCellList(list, cells, generation)
      ensures ProperRow(row) && IsRow(row, node, cells, generation)
    {
      row := DeriveRow(node, list);
      RowIsProper(row, list);
      RowIsRow(row, node, cells, generation, list);
    }

    /** The cells of a node in agent order, marked stale when the last pass missed them. */
    static method CellList(row: Row, generation: nat) returns (list: seq<Cell>)
      requires forall agent :: agent in row ==> CellInv(row[agent], agent)
      ensures IsCellList(list, row, generation)
    {
      var agents := SortStrings(row.Keys);
      list := [];
      for i := 0 to |agents|
        invariant |list| == i
        invariant forall k :: 0 <= k < i ==> agents[k] in row && list[k] == Shown(row[agents[k]], generation)
      {
        assert agents[i] in Elements(agents);
        list := list + [Shown(row[agents[i]], generation)];
      }
      BeforeOrders(Elements(agents));
      AscendingIsDistinct(agents, Before);
      forall agent | agent in row ensures exists i :: 0 <= i < |list| && list[i] == Shown(row[agent], generation) {
        assert agent in Elements(agents);
        var i :| 0 <= i < |agents| && agents[i] == agent;
        assert list[i] == Shown(row[agent], generation);
      }
    }

    /** The findings of these nodes, in the order they are shown. */
    ghost predicate AreListed(result: seq<Finding>, nodes: set<string>)
      requires nodes <= cells.Keys
      reads this
    {
      && Ascending(result, FindingOrder()) && Keyed(Elements(result))
      && (forall f :: f in result ==> f.node in nodes)
      && forall node {:trigger OnNode(result, node)} :: node in nodes ==>
           exists row: NodeRow :: IsRow(row, node, cells[node], generation) && AreFindings(OnNode(result, node), row)
    }

    method Findings() returns (result: seq<Finding>)
      requires Valid()
      ensures AreListed(result, cells.Keys)
      // the confirmed ones first, and the newest first among those
      ensures forall i, j :: 0 <= i < j < |result| ==>
                && (result[j].confirmed ==> result[i].confirmed)
                && (result[j].confirmed == result[i].confirmed ==> result[j].since <= result[i].since)
    {
      result := [];
      var left := cells.Keys;
      ghost var done: set<string> := {};
      while left != {}
        invariant done !! left && done + left == cells.Keys && AreListed(result, done)
        decreases left
      {
        var node :| node in left;
        result := ListNode(result, node, done);
        left, done := left - {node}, done + {node};
      }
      assert done == cells.Keys;
    }

    method ListNode(result: seq<Finding>, node: string, ghost done: set<string>) returns (more: seq<Finding>)
      requires Valid() && node in cells && node !in done && done <= cells.Keys && AreListed(result, done)
      ensures AreListed(more, done + {node})
    {
      var row := RowOf(node);
      var found := RowFindings(row);
      more := AddFindings(result, found, node);
      forall other | other in done + {node}
        ensures exists r: NodeRow :: IsRow(r, other, cells[other], generation) && AreFindings(OnNode(more, other), r)
      {
        if other == node {
          assert OnNode(more, node) == found;
        } else {
          assert OnNode(more, other) == OnNode(result, other);
        }
      }
    }
  }

  method AddFindings(s: seq<Finding>, found: set<Finding>, node: string) returns (r: seq<Finding>)
    requires Ascending(s, FindingOrder()) && Keyed(Elements(s)) && Keyed(found)
    requires (forall f :: f in found ==> f.node == node) && (forall f :: f in s ==> f.node != node)
    ensures Ascending(r, FindingOrder()) && Keyed(Elements(r)) && Elements(r) == Elements(s) + found
    ensures forall f :: f in r <==> f in s || f in found
  {
    r := s;
    var left := found;
    while left != {}
      invariant left <= found && Ascending(r, FindingOrder())
      invariant Elements(r) == Elements(s) + (found - left)
      decreases left
    {
      var f :| f in left;
      assert Keyed(Elements(s) + found);
      FindingOrderOrders(Elements(r) + {f});
      r := Insert(r, f, FindingOrder());
      left := left - {f};
    }
    assert forall f :: f in r <==> f in Elements(r);
    assert forall f :: f in s <==> f in Elements(s);
  }

  function With(cells: map<string, Row>, node: string, c: Cell): map<string, Row> {
    cells[node := (if node in cells then cells[node] else map[])[c.agent := c]]
  }

  /** What one agent has said about one node since its cell was last dropped. */
  ghost function Known(cells: map<string, Row>, history: map<(string, string), seq<Sample>>, node: string, agent: string): seq<Sample> {
    if (node, agent) in history && node in cells && agent in cells[node] then history[(node, agent)] else []
  }

  predicate CellInv(c: Cell, agent: string) {
    c.agent == agent && c.since != 0 && !c.stale && !c.unreachable && Compared(c)
  }

  /** The history's last record is the cell's, and so is its streak. */
  ghost predicate Tells(h: seq<Sample>, c: Cell) {
    && h != [] && h[|h| - 1] == Sample(c.verdict, c.localCheckedAt, c.checkedAt)
    && HasStreak(h, c.streak, c.since)
  }

  /** A node keeps exactly the cells of the agents still registered, untouched, and goes when it is
      unknown or has none left. */
  predicate RetainedAt(before: map<string, Row>, after: map<string, Row>, nodes: set<string>, agents: set<string>, node: string) {
    if node in before && node in nodes && KeepAgents(before[node], agents) != map[]
    then node in after && after[node] == KeepAgents(before[node], agents)
    else node !in after
  }

  function KeepAgents(row: Row, agents: set<string>): (r: Row)
    ensures forall agent :: agent in r <==> agent in row && agent in agents
    ensures forall agent :: agent in r ==> r[agent] == row[agent]
  {
    map agent | agent in row && agent in agents :: row[agent]
  }

  function Shown(c: Cell, generation: nat): Cell {
    c.(stale := generation > 0 && c.generation != generation)
  }

  predicate Fresh(c: Cell, generation: nat) {
    Evidence(Shown(c, generation))
  }

  /** Someone, the checker or an agent, reached the node in the last pass. */
  predicate Reached(row: Row, generation: nat) {
    exists agent :: agent in row && Fresh(row[agent], generation) && (row[agent].localStatus.Online? || row[agent].agentStatus.Online?)
  }

  predicate ReachedLocally(row: Row, generation: nat) {
    exists agent :: agent in row && Fresh(row[agent], generation) && row[agent].localStatus.Online?
  }

  /** A row as it is read: an agent is marked exactly when its cell is fresh, says something, and
      failed on a node that was reached; the checker exactly when only agents reached the node. */
  ghost predicate IsRow(row: NodeRow, node: string, cells: Row, generation: nat) {
    && row.node == node && row.alive == Reached(cells, generation)
    && row.localUnreachable == (Reached(cells, generation) && !ReachedLocally(cells, generation))
    && (forall i :: 0 <= i < |row.cells| ==> row.cells[i].agent in cells && row.cells[i] == ShownIn(cells, row.cells[i].agent, generation))
    && (forall agent :: agent in cells ==> exists i :: 0 <= i < |row.cells| && row.cells[i].agent == agent)
    && InAgentOrder(row.cells)
    && (if row.localUnreachable then LongestLocal(row, row.cells) else row.localStreak == 0 && row.localSince == 0)
  }

  function ShownIn(cells: Row, agent: string, generation: nat): Cell
    requires agent in cells
  {
    Shown(cells[agent], generation).(
      unreachable := Reached(cells, generation) && Fresh(cells[agent], generation) && !cells[agent].agentStatus.Online?)
  }

  ghost predicate IsCellList(list: seq<Cell>, row: Row, generation: nat) {
    && (forall i :: 0 <= i < |list| ==> list[i].agent in row && list[i] == Shown(row[list[i].agent], generation))
    && (forall agent :: agent in row ==> exists i :: 0 <= i < |list| && list[i] == Shown(row[agent], generation))
    && InAgentOrder(list)
  }

  ghost predicate InAgentOrder(list: seq<Cell>) {
    forall i, j :: 0 <= i < j < |list| ==> list[i].agent != list[j].agent && Before(list[i].agent, list[j].agent)
  }

  /** The row's cells are those of the list, marked. */
  predicate IsMarked(row: NodeRow, list: seq<Cell>) {
    && |row.cells| == |list|
    && forall i :: 0 <= i < |list| ==> row.cells[i] == list[i].(unreachable := row.alive && Evidence(list[i]) && !list[i].agentStatus.Online?)
  }

  lemma RowIsProper(row: NodeRow, list: seq<Cell>)
    requires IsMarked(row, list) && InAgentOrder(list)
    requires row.alive <==> LocalUp(list) || AgentUp(list)
    requires row.localUnreachable <==> row.alive && !LocalUp(list)
    requires forall i :: 0 <= i < |list| ==> list[i].agent != ""
    ensures ProperRow(row)
  {
    if row.localUnreachable {
      var i :| 0 <= i < |list| && Evidence(list[i]) && list[i].agentStatus.Online?;
      assert Evidence(row.cells[i]);
    }
  }

  /** Marking cells does not change what the checker's own failure is read from, nor their order. */
  lemma SameLocal(row: NodeRow, list: seq<Cell>)
    requires IsMarked(row, list) && LongestLocal(row, list)
    ensures LongestLocal(row, row.cells)
  {
    var i :| 0 <= i < |list| && Evidence(list[i]) && list[i].streak == row.localStreak;
    var j :| 0 <= j < |list| && Evidence(list[j]) && list[j].since == row.localSince;
    assert Evidence(row.cells[i]) && row.cells[i].streak == row.localStreak;
    assert Evidence(row.cells[j]) && row.cells[j].since == row.localSince;
  }

  lemma SameOrder(row: NodeRow, list: seq<Cell>)
    requires IsMarked(row, list) && InAgentOrder(list)
    ensures InAgentOrder(row.cells)
  {
  }

  lemma ReachedIs(list: seq<Cell>, cells: Row, generation: nat)
    requires IsCellList(list, cells, generation)
    ensures LocalUp(list) == ReachedLocally(cells, generation) && (LocalUp(list) || AgentUp(list)) == Reached(cells, generation)
  {
    forall agent | agent in cells && Fresh(cells[agent], generation)
      ensures cells[agent].localStatus.Online? ==> LocalUp(list)
      ensures cells[agent].agentStatus.Online? ==> AgentUp(list)
    {
      var i :| 0 <= i < |list| && list[i] == Shown(cells[agent], generation);
    }
  }

  lemma AllShown(row: NodeRow, cells: Row, generation: nat, list: seq<Cell>)
    requires IsMarked(row, list) && IsCellList(list, cells, generation) && row.alive == Reached(cells, generation)
    requires forall agent :: agent in cells ==> cells[agent].agent == agent
    ensures forall i :: 0 <= i < |row.cells| ==> row.cells[i].agent in cells && row.cells[i] == ShownIn(cells, row.cells[i].agent, generation)
    ensures forall agent :: agent in cells ==> exists i :: 0 <= i < |row.cells| && row.cells[i].agent == agent
  {
    forall agent | agent in cells ensures exists i :: 0 <= i < |row.cells| && row.cells[i].agent == agent {
      IsListed(row, cells, generation, list, agent);
    }
  }

  lemma IsListed(row: NodeRow, cells: Row, generation: nat, list: seq<Cell>, agent: string)
    requires IsMarked(row, list) && IsCellList(list, cells, generation)
    requires agent in cells && cells[agent].agent == agent
    ensures exists i :: 0 <= i < |row.cells| && row.cells[i].agent == agent
  {
    var i :| 0 <= i < |list| && list[i] == Shown(cells[agent], generation);
    assert row.cells[i].agent == agent;
  }

  lemma RowIsRow(row: NodeRow, node: string, cells: Row, generation: nat, list: seq<Cell>)
    requires row.node == node && IsMarked(row, list) && IsCellList(list, cells, generation)
    requires row.alive <==> LocalUp(list) || AgentUp(list)
    requires row.localUnreachable <==> row.alive && !LocalUp(list)
    requires forall agent :: agent in cells ==> cells[agent].agent == agent
    requires if row.localUnreachable then LongestLocal(row, list) else row.localStreak == 0 && row.localSince == 0
    ensures IsRow(row, node, cells, generation)
  {
    ReachedIs(list, cells, generation);
    AllShown(row, cells, generation, list);
    SameOrder(row, list);
    if row.localUnreachable {
      SameLocal(row, list);
    }
  }

  /** Two records of the present run disagreed with the checker, against different local samples. */
  ghost predicate DisagreedTwice(h: seq<Sample>) {
    exists i, j {:trigger DisagreedAt(h, i), DisagreedAt(h, j)} ::
      0 <= i < j < |h| && DisagreedAt(h, i) && DisagreedAt(h, j) && h[i].local < h[j].local
  }

  predicate DisagreedAt(h: seq<Sample>, i: int) {
    0 <= i < |h| && SameVerdictFrom(h, i) && Disagrees(h[i].verdict)
  }

  /** A confirmed failure was seen twice to disagree with the checker exactly when the checker itself
      reaches the node. Otherwise every record of the run agreed with the checker. */
  lemma ConfirmedIsDisagreement(h: seq<Sample>, cells: Row, agent: string, generation: nat)
    requires agent in cells && CellInv(cells[agent], agent) && Tells(h, cells[agent])
    requires Confirmed(ShownIn(cells, agent, generation))
    ensures DisagreedTwice(h) <==> cells[agent].localStatus.Online?
  {
    var c := cells[agent];
    assert c.verdict == Compare(c.localStatus.Online?, false);
    if c.localStatus.Online? {
      var i, j := ConfirmingNeedsTwoSamples(h, c.streak, c.since);
      SameVerdictLater(h, i, j);
      assert DisagreedAt(h, i) && DisagreedAt(h, j);
    } else {
      forall i | 0 <= i < |h| ensures !DisagreedAt(h, i) {
        assert SameVerdictFrom(h, i) ==> h[i].verdict == c.verdict;
      }
    }
  }

  // ----- the failing input -----

  const NODE := "n"
  const SILENT := "a"
  const ANSWERING := "b"

  function DownCell(agent: string, at: Time): Cell {
    Cell(agent, AgreedDown, Offline, Offline, at, at, "", false, Plain, 0, 0, 0, false, false)
  }

  /** Both agents have cells of the last pass in which everyone failed. */
  ghost predicate AllDown(m: Matrix, h: seq<Sample>)
    reads m
  {
    && m.Valid() && NODE in m.cells && m.cells[NODE].Keys == {SILENT, ANSWERING}
    && (forall agent :: agent in m.cells[NODE] ==>
          m.cells[NODE][agent].localStatus.Offline? && m.cells[NODE][agent].agentStatus.Offline? && m.cells[NODE][agent].verdict.AgreedDown?)
    && (NODE, SILENT) in m.history && m.history[(NODE, SILENT)] == h
  }

  /** A sweep in which everyone fails. */
  method SweepDown(m: Matrix, at: Time, ghost h: seq<Sample>)
    requires m.Valid() && at > 0 && if h == [] then m.cells == map[] else AllDown(m, h)
    modifies m
    ensures AllDown(m, h + [Sample(AgreedDown, at, at)])
  {
    m.BeginSweep();
    var _ := m.Record(NODE, DownCell(SILENT, at), at);
    assert (NODE, SILENT) in m.history && m.history[(NODE, SILENT)] == h + [Sample(AgreedDown, at, at)];
    var _ := m.Record(NODE, DownCell(ANSWERING, at), at);
  }

  method RecordNext(m: Matrix, cell: Cell, at: Time, ghost h: seq<Sample>) returns (recorded: Cell)
    requires m.Valid() && at > 0 && NODE in m.cells && cell.agent in m.cells[NODE] && cell.agent != ""
    requires (NODE, cell.agent) in m.history && m.history[(NODE, cell.agent)] == h
    requires cell.checkedAt == at && !cell.stale && !cell.unreachable && Compared(cell)
    modifies m
    ensures m.Valid() && m.generation == old(m.generation)
    ensures m.cells == old(m.cells)[NODE := old(m.cells)[NODE][cell.agent := recorded]]
    ensures recorded == cell.(generation := m.generation, since := recorded.since, streak := recorded.streak)
    ensures Tells(h + [Sample(cell.verdict, cell.localCheckedAt, at)], recorded)
  {
    recorded := m.Record(NODE, cell, at);
    assert m.Sound(NODE, cell.agent);
  }

  method SweepAnswered(m: Matrix, at: Time, ghost h: seq<Sample>)
    requires at > 0 && AllDown(m, h)
    modifies m
    ensures m.Valid() && NODE in m.cells && SILENT in m.cells[NODE] && Reached(m.cells[NODE], m.generation)
    ensures Fresh(m.cells[NODE][SILENT], m.generation) && m.cells[NODE][SILENT].agentStatus.Offline?
    ensures Tells(h + [Sample(AgreedDown, at, at)], m.cells[NODE][SILENT])
  {
    m.BeginSweep();
    assert m.Sound(NODE, ANSWERING);
    var silent := RecordNext(m, DownCell(SILENT, at), at, h);
    assert m.Sound(NODE, ANSWERING);
    var answer := RecordNext(m, DownCell(ANSWERING, at).(verdict := LocalOnlyFailure, agentStatus := Online), at, m.history[(NODE, ANSWERING)]);
    assert m.cells[NODE][SILENT] == silent && m.cells[NODE][ANSWERING] == answer;
    assert Fresh(answer, m.generation);
  }

  method ReadDown(m: Matrix, ghost h: seq<Sample>) returns (row: NodeRow)
    requires AllDown(m, h)
    ensures !row.alive
  {
    row := m.RowOf(NODE);
  }

  method ReadSilent(m: Matrix) returns (row: NodeRow)
    requires m.Valid() && NODE in m.cells && SILENT in m.cells[NODE] && Confirmed(ShownIn(m.cells[NODE], SILENT, m.generation))
    ensures exists i :: 0 <= i < |row.cells| && row.cells[i].agent == SILENT && Confirmed(row.cells[i])
  {
    row := m.RowOf(NODE);
    var i :| 0 <= i < |row.cells| && row.cells[i].agent == SILENT;
    assert row.cells[i] == ShownIn(m.cells[NODE], SILENT, m.generation);
  }

  /** Two sweeps in which everyone fails, then one in which one agent answers: the other agent's
      failure is confirmed at once, although no record ever disagreed with the checker. */
  method TwoSweepsDownThenOneAnswer() returns (m: Matrix, h: seq<Sample>, before: NodeRow, after: NodeRow)
    ensures fresh(m) && m.Valid() && NODE in m.cells && SILENT in m.cells[NODE] && Tells(h, m.cells[NODE][SILENT])
    ensures !before.alive && Confirmed(ShownIn(m.cells[NODE], SILENT, m.generation)) && !DisagreedTwice(h)
    ensures exists i :: 0 <= i < |after.cells| && after.cells[i].agent == SILENT && Confirmed(after.cells[i])
  {
    m := new Matrix();
    SweepDown(m, 1, []);
    SweepDown(m, 2, [Sample(AgreedDown, 1, 1)]);
    before := ReadDown(m, [Sample(AgreedDown, 1, 1)] + [Sample(AgreedDown, 2, 2)]);
    SweepAnswered(m, 3, [Sample(AgreedDown, 1, 1)] + [Sample(AgreedDown, 2, 2)]);
    h := [Sample(AgreedDown, 1, 1)] + [Sample(AgreedDown, 2, 2)] + [Sample(AgreedDown, 3, 3)];
    StreakOfThree(h, m.cells[NODE][SILENT].streak, m.cells[NODE][SILENT].since);
    after := ReadSilent(m);
  }

  lemma StreakOfThree(h: seq<Sample>, streak: nat, since: Time)
    requires h == [Sample(AgreedDown, 1, 1), Sample(AgreedDown, 2, 2), Sample(AgreedDown, 3, 3)] && HasStreak(h, streak, since)
    ensures streak == 3 && !DisagreedTwice(h)
  {
    assert forall k :: 0 < k < 3 ==> h[k - 1].verdict == h[k].verdict;
    var i: nat :| RunStartsAt(h, i) && streak == 1 + Advances(h, i) && since == h[i].at;
    assert i == 0;
    assert h[..2] == [Sample(AgreedDown, 1, 1), Sample(AgreedDown, 2, 2)];
    assert Advances(h[..2], 0) == 1 + Advances(h[..2][..1], 0);
  }
}
