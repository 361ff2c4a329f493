/** The transaction history: an update replaces the rows it belongs to, in place, and never takes a
    confirmation back. A row is its set of present fields. */
module ActivityHistory {
  import opened Wrappers

  type Row = map<string, string>

  function LowerChar(c: char): char { if 'A' <= c <= 'Z' then c - 'A' + 'a' else c }

  function Lower(s: string): string { seq(|s|, i requires 0 <= i < |s| => LowerChar(s[i])) }

  /** The field as a condition sees it: absent and empty are both nothing. */
  function Field(row: Row, name: string): Option<string> {
    if name in row && row[name] != "" then Some(row[name]) else None
  }

  function LowerField(row: Row, name: string): Option<string> {
    if Field(row, name).Some? then Some(Lower(Field(row, name).value)) else None
  }

  predicate Same(item: Row, update: Row) {
    || (Field(update, "activityId").Some? && Field(item, "activityId") == Field(update, "activityId"))
    || (Field(update, "txHash").Some? && LowerField(item, "txHash") == LowerField(update, "txHash"))
    || (Field(update, "userOpHash").Some? && LowerField(item, "userOpHash") == LowerField(update, "userOpHash"))
  }

  predicate Confirmed(row: Row) {
    "status" in row && row["status"] == "confirmed"
  }

  function PickOne(item: Row, update: Row, same: bool): seq<Row> {
    if Same(item, update) == same then [item] else []
  }

  /** The rows that match the update, or the ones that do not, in order. */
  function Pick(items: seq<Row>, update: Row, same: bool): seq<Row> {
    if |items| == 0 then [] else PickOne(items[0], update, same) + Pick(items[1..], update, same)
  }

  function Matches(items: seq<Row>, update: Row): seq<Row> { Pick(items, update, true) }

  function Others(items: seq<Row>, update: Row): seq<Row> { Pick(items, update, false) }

  /** The index of the first matching row, or of none the length. */
  function FirstMatch(items: seq<Row>, update: Row): (r: nat)
    ensures r <= |items|
  {
    if |items| == 0 || Same(items[0], update) then 0 else 1 + FirstMatch(items[1..], update)
  }

  function FirstWith(rows: seq<Row>, p: Row -> bool): Option<Row> {
    if |rows| == 0 then None else if p(rows[0]) then Some(rows[0]) else FirstWith(rows[1..], p)
  }

  /** The matching row whose fields an update is laid over: the first that names an activity, else the first. */
  function Standing(matches: seq<Row>): Option<Row> {
    var named := FirstWith(matches, (row: Row) => Field(row, "activityId").Some?);
    if named.Some? then named else if |matches| > 0 then Some(matches[0]) else None
  }

  function FirstConfirmed(matches: seq<Row>): Option<Row> {
    FirstWith(matches, (row: Row) => Confirmed(row))
  }

  /** The row that stands for all matching ones afterwards. */
  function Merge(matches: seq<Row>, update: Row): Row {
    var existing := Standing(matches);
    var merged := (if existing.Some? then existing.value else map[]) + update;
    var kept :=
      if existing.None? then merged
      else if "id" in existing.value then merged["id" := existing.value["id"]] else merged - {"id"};
    var confirmed := FirstConfirmed(matches);
    if confirmed.Some? && !Confirmed(update) then kept + confirmed.value else kept
  }

  function Upsert(items: seq<Row>, update: Row): (r: seq<Row>)
    ensures FirstMatch(items, update) < |r|
  {
    var others := Others(items, update);
    var first := FirstMatch(items, update);
    var at := if first < |items| then first else |others|;
    PrefixIsOthers(items, update);
    others[..at] + [Merge(Matches(items, update), update)] + others[at..]
  }

  // ---------------------------------------------------------------- where rows end up

  lemma {:induction false} PrefixIsOthers(items: seq<Row>, update: Row)
    ensures var first := FirstMatch(items, update);
            && first <= |Others(items, update)| && Others(items, update)[..first] == items[..first]
            && (first == |items| ==> Others(items, update) == items && Matches(items, update) == [])
  {
    hide Same;
    if |items| > 0 && !Same(items[0], update) {
      PrefixIsOthers(items[1..], update);
      assert items[..FirstMatch(items, update)] == [items[0]] + items[1..][..FirstMatch(items[1..], update)];
      assert items == [items[0]] + items[1..];
    }
  }

  lemma Associate(a: seq<Row>, b: seq<Row>, c: seq<Row>)
    ensures a + (b + c) == a + b + c
  {
  }

  lemma {:induction false} PickSplits(items: seq<Row>, more: seq<Row>, update: Row, same: bool)
    ensures Pick(items + more, update, same) == Pick(items, update, same) + Pick(more, update, same)
  {
    hide Same, PickOne;
    if |items| == 0 {
      assert items + more == more;
    } else {
      PickSplits(items[1..], more, update, same);
      var both := items + more;
      assert both[0] == items[0] && both[1..] == items[1..] + more;
      var head, a, b := PickOne(items[0], update, same), Pick(items[1..], update, same), Pick(more, update, same);
      assert Pick(both, update, same) == head + Pick(both[1..], update, same);
      Associate(head, a, b);
    }
  }

  lemma {:induction false} PickedAre(items: seq<Row>, update: Row, same: bool, row: Row)
    requires row in Pick(items, update, same)
    ensures Same(row, update) == same && row in items
  {
    hide Same;
    if !(Same(items[0], update) == same && row == items[0]) { PickedAre(items[1..], update, same, row); }
  }

  lemma {:induction false} PickAll(items: seq<Row>, update: Row, same: bool)
    requires forall row :: row in items ==> Same(row, update) == same
    ensures Pick(items, update, same) == items && Pick(items, update, !same) == []
  {
    hide Same;
    if |items| > 0 {
      PickAll(items[1..], update, same);
      assert items == [items[0]] + items[1..];
    }
  }

  /** An update that names a transaction leaves exactly one row for it, where the first one was, or at the end;
      all other rows stay, in their order. */
  lemma OneRowInPlace(items: seq<Row>, update: Row)
    requires Same(update, update)
    ensures var after := Upsert(items, update);
            var merged := Merge(Matches(items, update), update);
            && Others(after, update) == Others(items, update)
            && Matches(after, update) == [merged]
            && after[..FirstMatch(items, update)] == items[..FirstMatch(items, update)]
            && after[FirstMatch(items, update)] == merged
  {
    hide Merge, Same, Pick, FirstMatch, Upsert, Matches, Others;
    PlaceOfMerged(items, update);
    PicksOfUpsert(items, update);
  }

  lemma PicksOfUpsert(items: seq<Row>, update: Row)
    requires Same(update, update)
    ensures Others(Upsert(items, update), update) == Others(items, update)
    ensures Matches(Upsert(items, update), update) == [Merge(Matches(items, update), update)]
  {
    MergedIsSame(items, update);
    UpsertShape(items, update);
    hide Merge, Same, Pick, FirstMatch, Upsert;
    var others, first := Others(items, update), FirstMatch(items, update);
    forall row | row in others ensures !Same(row, update) { PickedAre(items, update, false, row); }
    PickInserted(others[..first], others[first..], Merge(Matches(items, update), update), update);
    assert others[..first] + others[first..] == others;
  }

  lemma PlaceOfMerged(items: seq<Row>, update: Row)
    ensures var after, first := Upsert(items, update), FirstMatch(items, update);
            && first < |after| && first <= |items| && after[..first] == items[..first]
            && after[first] == Merge(Matches(items, update), update)
  {
    UpsertShape(items, update);
    hide Merge, Same, Pick, FirstMatch, Upsert, Matches, Others;
  }

  lemma UpsertShape(items: seq<Row>, update: Row)
    ensures var others, first := Others(items, update), FirstMatch(items, update);
            && first <= |others| && others[..first] == items[..first]
            && Upsert(items, update) == others[..first] + [Merge(Matches(items, update), update)] + others[first..]
  {
    PrefixIsOthers(items, update);
    hide Same, Pick, FirstMatch, Merge;
  }

  lemma PickThree(before: seq<Row>, merged: Row, behind: seq<Row>, update: Row, same: bool)
    ensures Pick(before + [merged] + behind, update, same)
            == Pick(before, update, same) + Pick([merged], update, same) + Pick(behind, update, same)
  {
    hide Pick;
    PickSplits(before + [merged], behind, update, same);
    PickSplits(before, [merged], update, same);
  }

  lemma PickInserted(before: seq<Row>, behind: seq<Row>, merged: Row, update: Row)
    requires Same(merged, update)
    requires (forall row :: row in before ==> !Same(row, update)) && forall row :: row in behind ==> !Same(row, update)
    ensures var after := before + [merged] + behind;
            Others(after, update) == before + behind && Matches(after, update) == [merged]
  {
    hide Same, Pick;
    var after := before + [merged] + behind;
    assert Others(after, update) == before + [] + behind by {
      PickAll(before, update, false);
      PickAll(behind, update, false);
      PickAll([merged], update, true);
      PickThree(before, merged, behind, update, false);
    }
    assert Matches(after, update) == [] + [merged] + [] by {
      PickAll(before, update, false);
      PickAll(behind, update, false);
      PickAll([merged], update, true);
      PickThree(before, merged, behind, update, true);
    }
  }

  lemma {:induction false} FirstWithHolds(rows: seq<Row>, p: Row -> bool)
    ensures FirstWith(rows, p).Some? ==> FirstWith(rows, p).value in rows && p(FirstWith(rows, p).value)
    ensures FirstWith(rows, p).None? ==> forall row :: row in rows ==> !p(row)
  {
    if |rows| > 0 { FirstWithHolds(rows[1..], p); }
  }

  lemma MergedIsSame(items: seq<Row>, update: Row)
    requires Same(update, update)
    ensures Same(Merge(Matches(items, update), update), update)
  {
    var matches := Matches(items, update);
    var confirmed := FirstWith(matches, (row: Row) => Confirmed(row));
    FirstWithHolds(matches, (row: Row) => Confirmed(row));
    if confirmed.Some? && !Confirmed(update) {
      PickedAre(items, update, true, confirmed.value);
    }
  }

  // ---------------------------------------------------------------- confirmations

  /** No update takes a confirmation back: if a matching row was confirmed, the merged row is, and unless the
      update is itself a confirmation it keeps every field of that row. */
  lemma ConfirmationIsKept(items: seq<Row>, update: Row, row: Row)
    requires row in Matches(items, update) && Confirmed(row)
    ensures var merged := Merge(Matches(items, update), update);
            && Confirmed(merged)
            && (!Confirmed(update) ==>
                exists kept: Row :: kept in Matches(items, update) && Confirmed(kept) && forall k :: k in kept ==>
                k in merged && merged[k] == kept[k])
  {
    var matches := Matches(items, update);
    FirstWithHolds(matches, (r: Row) => Confirmed(r));
  }

  /** A hash that the history shows as confirmed. */
  predicate ShowsConfirmed(items: seq<Row>, hash: string) {
    exists row :: row in items && Confirmed(row) && LowerField(row, "txHash") == Some(hash)
  }

  /** The row whose hash the merged row takes over. */
  function HashSource(matches: seq<Row>, update: Row): Row {
    var confirmed := FirstConfirmed(matches);
    if !Confirmed(update) && confirmed.Some? && "txHash" in confirmed.value then confirmed.value
    else if "txHash" in update || |matches| == 0 then update
    else Standing(matches).value
  }

  /** The hash survives the merge. */
  predicate Keeps(items: seq<Row>, update: Row, hash: string) {
    LowerField(HashSource(Matches(items, update), update), "txHash") == Some(hash)
  }

  lemma {:induction false} EveryRowIsPicked(items: seq<Row>, update: Row, row: Row)
    requires row in items
    ensures row in (if Same(row, update) then Matches(items, update) else Others(items, update))
  {
    hide Same;
    if row != items[0] { EveryRowIsPicked(items[1..], update, row); }
  }

  lemma UpsertHolds(items: seq<Row>, update: Row, row: Row)
    requires row in Others(items, update) || row == Merge(Matches(items, update), update)
    ensures row in Upsert(items, update)
  {
    UpsertShape(items, update);
    hide Same, Pick, FirstMatch, Merge, Upsert;
    var others, at := Others(items, update), FirstMatch(items, update);
    if row in others {
      var i :| 0 <= i < |others| && others[i] == row;
      assert i < at ==> row == others[..at][i];
      assert i >= at ==> row == others[at..][i - at];
    }
  }

  lemma UpsertHoldsOnly(items: seq<Row>, update: Row, row: Row)
    requires row in Upsert(items, update)
    ensures row in Others(items, update) || row == Merge(Matches(items, update), update)
  {
    UpsertShape(items, update);
  }

  /** A hash that was seen confirmed stays confirmed exactly when a row that the update leaves alone shows it,
      or the row whose hash the merged one takes over has it. */
  lemma ConfirmedHashStaysWhen(items: seq<Row>, update: Row, row: Row, hash: string)
    requires row in items && Confirmed(row) && LowerField(row, "txHash") == Some(hash)
    ensures ShowsConfirmed(Upsert(items, update), hash)
            <==> ShowsConfirmed(Others(items, update), hash) || Keeps(items, update, hash)
  {
    EveryRowIsPicked(items, update, row);
    var matches, others := Matches(items, update), Others(items, update);
    var merged := Merge(matches, update);
    hide Same, Pick, Merge, Upsert, HashSource, LowerField;
    forall r | r in others || r == merged ensures r in Upsert(items, update) { UpsertHolds(items, update, r); }
    forall r | r in Upsert(items, update) ensures r in others || r == merged { UpsertHoldsOnly(items, update, r); }
    if row in matches { MergeTakesOver(matches, update, row); }
  }

  /** A merge over a confirmed row is confirmed, under the hash it takes over. */
  lemma MergeTakesOver(matches: seq<Row>, update: Row, row: Row)
    requires row in matches && Confirmed(row)
    ensures var merged := Merge(matches, update);
            Confirmed(merged) && LowerField(merged, "txHash") == LowerField(HashSource(matches, update), "txHash")
  {
    FirstWithHolds(matches, (r: Row) => Confirmed(r));
  }

  /** A confirmation can be lost: a confirming update of the same activity under another hash replaces it. */
  lemma ConfirmationCanBeReplaced()
    ensures var row := map["activityId" := "a", "txHash" := "0x1", "status" := "confirmed"];
            var update := map["activityId" := "a", "txHash" := "0x2", "status" := "confirmed"];
            !ShowsConfirmed(Upsert([row], update), "0x1")
  {
    var row: Row := map["activityId" := "a", "txHash" := "0x1", "status" := "confirmed"];
    var update: Row := map["activityId" := "a", "txHash" := "0x2", "status" := "confirmed"];
    assert Field(row, "activityId") == Field(update, "activityId") == Some("a");
    var merged := Merge([row], update);
    assert FirstWith([row], (r: Row) => Field(r, "activityId").Some?) == Some(row);
    assert merged["txHash"] == "0x2";
    assert Lower("0x2")[2] == '2' && Lower("0x1")[2] == '1';
    UpsertOne(row, update);
  }

  lemma UpsertOne(row: Row, update: Row)
    requires Same(row, update)
    ensures Upsert([row], update) == [Merge([row], update)]
  {
    hide Same, Merge;
    PickAll([row], update, true);
  }

  // ---------------------------------------------------------------- which rows belong together

  /** The two letters, upper or lower case, are one. */
  predicate OneLetter(a: char, b: char) {
    || a == b
    || ('A' <= a <= 'Z' && b as int == a as int + 32)
    || ('A' <= b <= 'Z' && a as int == b as int + 32)
  }

  predicate OneHash(a: string, b: string) {
    |a| == |b| && forall i :: 0 <= i < |a| ==> OneLetter(a[i], b[i])
  }

  predicate Shares(item: Row, update: Row, name: string) {
    name in item && name in update && update[name] != "" && OneHash(item[name], update[name])
  }

  /** A row belongs to an update exactly when they share a non-empty activity id, letter for letter, or a non-empty
      transaction or operation hash, whatever the case of its letters. */
  lemma BelongsExactlyWhen(item: Row, update: Row)
    ensures Same(item, update) <==>
              || ("activityId" in item && "activityId" in update && update["activityId"] != ""
                  && item["activityId"] == update["activityId"])
              || Shares(item, update, "txHash") || Shares(item, update, "userOpHash")
  {
    LowerTells(item, update, "txHash");
    LowerTells(item, update, "userOpHash");
    hide LowerField, OneHash;
  }

  lemma LowerTells(item: Row, update: Row, name: string)
    ensures Field(update, name).Some? && LowerField(item, name) == LowerField(update, name)
            <==> Shares(item, update, name)
  {
    if name in item && name in update {
      CaseFolds(item[name], update[name]);
    }
    hide Lower, OneHash;
  }

  lemma CaseFolds(a: string, b: string)
    ensures Lower(a) == Lower(b) <==> OneHash(a, b)
    ensures OneHash(a, b) ==> (a == "" <==> b == "")
  {
    if |a| == |b| {
      forall i | 0 <= i < |a| ensures Lower(a)[i] == Lower(b)[i] <==> OneLetter(a[i], b[i]) {}
      if OneHash(a, b) { assert Lower(a) == Lower(b); }
    }
  }

  // ---------------------------------------------------------------- what the merged row says

  lemma {:induction false} FirstIsFirst(rows: seq<Row>, p: Row -> bool, i: nat)
    requires i < |rows| && p(rows[i]) && forall x :: 0 <= x < i ==> !p(rows[x])
    ensures FirstWith(rows, p) == Some(rows[i])
  {
    if i > 0 { FirstIsFirst(rows[1..], p, i - 1); }
  }

  /** The standing row is the first match with an activity id, or the first match when none has one; and the
      confirmation that is kept is the first confirmed match. */
  lemma FirstsAreFirst(matches: seq<Row>, i: nat)
    requires i < |matches|
    ensures var noneBefore := forall x :: 0 <= x < i ==> Field(matches[x], "activityId").None?;
            noneBefore && Field(matches[i], "activityId").Some? ==> Standing(matches) == Some(matches[i])
    ensures var noneAtAll := forall row :: row in matches ==> Field(row, "activityId").None?;
            noneAtAll ==> Standing(matches) == Some(matches[0])
    ensures var noneBefore := forall x :: 0 <= x < i ==> !Confirmed(matches[x]);
            noneBefore && Confirmed(matches[i]) ==> FirstConfirmed(matches) == Some(matches[i])
  {
    var named, confirmed := (row: Row) => Field(row, "activityId").Some?, (row: Row) => Confirmed(row);
    if named(matches[i]) && forall x :: 0 <= x < i ==> !named(matches[x]) { FirstIsFirst(matches, named, i); }
    if confirmed(matches[i]) && forall x :: 0 <= x < i ==> !confirmed(matches[x]) {
      FirstIsFirst(matches, confirmed, i);
    }
    FirstWithHolds(matches, named);
  }

  /** Field by field: the update's value where it has one, else the standing row's, except that the row keeps its id,
      and that the first confirmed match is laid over everything when the update is no confirmation. */
  lemma MergedFieldByField(matches: seq<Row>, update: Row, k: string)
    requires |matches| > 0
    ensures var merged, standing := Merge(matches, update), Standing(matches).value;
            var confirmed := FirstConfirmed(matches);
            var over := confirmed.Some? && !Confirmed(update) && k in confirmed.value;
            if over then k in merged && merged[k] == confirmed.value[k]
            else if k == "id" then (k in merged <==> k in standing) && (k in standing ==> merged[k] == standing[k])
            else if k in update then k in merged && merged[k] == update[k]
            else (k in merged <==> k in standing) && (k in standing ==> merged[k] == standing[k])
  {
  }
}
