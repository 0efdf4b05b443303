/** NewFromBytes: which transition tables are accepted (internal/fsm/loader/embed_loader.go). */
module TransitionLoader {
  import opened Base

  /** A row of the YAML file; a guard and a display name play no part. */
  datatype Row = Row(from: string, fromSub: string, event: string, to: string, toSub: string)

  /** Event and target status are required. */
  predicate Complete(r: Row) {
    r.event != "" && r.to != ""
  }

  predicate SameKey(a: Row, b: Row) {
    a.from == b.from && a.fromSub == b.fromSub && a.event == b.event
  }

  /** The text under which a row is remembered. */
  function KeyText(r: Row): string {
    r.from + ("|" + (r.fromSub + ("|" + r.event)))
  }

  predicate KeyTextsDiffer(rows: seq<Row>) {
    forall i, j :: 0 <= i < j < |rows| ==> KeyText(rows[i]) != KeyText(rows[j])
  }

  predicate DuplicateFree(rows: seq<Row>) {
    forall i, j :: 0 <= i < j < |rows| ==> !SameKey(rows[i], rows[j])
  }

  predicate AllComplete(rows: seq<Row>) {
    forall i :: 0 <= i < |rows| ==> Complete(rows[i])
  }

  method NewFromBytes(rows: seq<Row>) returns (res: Option<seq<Row>>)
    ensures res == if AllComplete(rows) && KeyTextsDiffer(rows) then Some(rows) else None
  {
    hide KeyText, Complete;
    var seen: set<string> := {};
    var mapped: seq<Row> := [];
    for i := 0 to |rows|
      invariant mapped == rows[..i]
      invariant AllComplete(rows[..i]) && KeyTextsDiffer(rows[..i])
      invariant forall k :: k in seen <==> exists j :: 0 <= j < i && KeyText(rows[j]) == k
    {
      var t := rows[i];
      if !Complete(t) {
        return None;
      }
      if KeyText(t) in seen {
        return None;
      }
      seen := seen + {KeyText(t)};
      mapped := mapped + [t];
      assert rows[..i + 1] == rows[..i] + [t];
    }
    assert rows[..|rows|] == rows;
    return Some(mapped);
  }

  predicate NoBar(s: string) {
    forall i :: 0 <= i < |s| ==> s[i] != '|'
  }

  lemma BarSplits(a: string, b: string, x: string, y: string)
    requires NoBar(a) && NoBar(b) && a + ("|" + x) == b + ("|" + y)
    ensures a == b && x == y
  {
    var s := a + ("|" + x);
    assert s[|a|] == '|' && (b + ("|" + y))[|b|] == '|';
    assert s[..|a|] == a && (b + ("|" + y))[..|b|] == b;
    assert s[|a| + 1..] == x && (b + ("|" + y))[|b| + 1..] == y;
  }

  predicate BarFree(rows: seq<Row>) {
    forall i :: 0 <= i < |rows| ==> NoBar(rows[i].from) && NoBar(rows[i].fromSub)
  }

  /** Every row names an event and a target, and no two have one state and event. */
  predicate Sound(rows: seq<Row>) {
    && (forall i :: 0 <= i < |rows| ==> rows[i].event != "" && rows[i].to != "")
    && (forall i, j :: 0 <= i < j < |rows| ==>
         rows[i].from != rows[j].from || rows[i].fromSub != rows[j].fromSub || rows[i].event != rows[j].event)
  }

  /** An accepted table is sound. While no status or substatus holds a bar, every sound
      table is accepted. */
  lemma AcceptsDuplicateFree(rows: seq<Row>)
    ensures AllComplete(rows) && KeyTextsDiffer(rows) ==> Sound(rows)
    ensures BarFree(rows) ==> (AllComplete(rows) && KeyTextsDiffer(rows) <==> Sound(rows))
  {
    hide NoBar;
    forall i, j | 0 <= i < j < |rows| && BarFree(rows) && KeyText(rows[i]) == KeyText(rows[j])
      ensures SameKey(rows[i], rows[j]) {
      var a, b := rows[i], rows[j];
      BarSplits(a.from, b.from, a.fromSub + ("|" + a.event), b.fromSub + ("|" + b.event));
      BarSplits(a.fromSub, b.fromSub, a.event, b.event);
    }
    forall i, j | 0 <= i < j < |rows| && SameKey(rows[i], rows[j]) ensures KeyText(rows[i]) == KeyText(rows[j]) { }
  }

  /** With a bar in a name, two different keys have one text and the table is refused. */
  lemma BarsCollide()
    ensures var rows := [Row("a|b", "c", "go", "x", ""), Row("a", "b|c", "go", "x", "")];
            AllComplete(rows) && DuplicateFree(rows) && !KeyTextsDiffer(rows)
  {
    var a, b := Row("a|b", "c", "go", "x", ""), Row("a", "b|c", "go", "x", "");
    var rows := [a, b];
    assert KeyText(a) == "a|b|c|go" && KeyText(b) == "a|b|c|go";
    assert KeyText(rows[0]) == KeyText(rows[1]);
  }
}
