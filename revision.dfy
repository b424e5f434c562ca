/** The revision queue: missed questions kept in the order they were first
    missed, at most one entry per question text, and the view the revision
    screen shows of it (app.js, addRevisionItem and renderRevisionList). */
module Revision {
  import opened Text
  import opened Progress

  /** One missed question: the tag of where it was missed ("preview",
      "practice", "test 2", ...) and the question's display text. */
  datatype RevisionItem = RevisionItem(source: string, text: string)

  predicate HasText(items: seq<RevisionItem>, text: string) {
    exists i :: 0 <= i < |items| && items[i].text == text
  }

  /** The queue invariant: no two entries share a question text. */
  predicate DistinctTexts(items: seq<RevisionItem>) {
    forall i, j :: 0 <= i < j < |items| ==> items[i].text != items[j].text
  }

  /** The queue after `addRevisionItem(source, text)`: unchanged when the
      text is already queued, otherwise the new item appended. */
  function Enqueue(items: seq<RevisionItem>, source: string, text: string): seq<RevisionItem> {
    if HasText(items, text) then items else items + [RevisionItem(source, text)]
  }

  /** The linear duplicate scan of addRevisionItem: is some queued item's text equal to `text`? */
  method ContainsText(items: seq<RevisionItem>, text: string) returns (found: bool)
    ensures found <==> HasText(items, text)
  {
    found := false;
    var i := 0;
    while i < |items| && !found
      invariant 0 <= i <= |items|
      invariant found <==> HasText(items[..i], text)
      decreases |items| - i
    {
      found := items[i].text == text;
      assert items[..i + 1] == items[..i] + [items[i]];
      i := i + 1;
    }
    if !found {
      assert items[..i] == items;
    } else {
      var k :| 0 <= k < i && items[..i][k].text == text;
      assert items[k].text == text;
    }
  }

  /** Enqueueing never disturbs what is already queued, adds at most one item,
      and afterwards the text is queued. */
  lemma EnqueueShape(items: seq<RevisionItem>, source: string, text: string)
    ensures items <= Enqueue(items, source, text)
    ensures HasText(items, text) ==> Enqueue(items, source, text) == items
    ensures !HasText(items, text) ==>
              |Enqueue(items, source, text)| == |items| + 1 &&
              Enqueue(items, source, text)[|items|] == RevisionItem(source, text)
    ensures HasText(Enqueue(items, source, text), text)
  {
    if !HasText(items, text) {
      var r := Enqueue(items, source, text);
      assert r[|items|].text == text;
    }
  }

  /** Adding the same text a second time, with any source tag, changes nothing. */
  lemma EnqueueIdempotent(items: seq<RevisionItem>, source: string, source': string, text: string)
    ensures Enqueue(Enqueue(items, source, text), source', text) == Enqueue(items, source, text)
  {
    EnqueueShape(items, source, text);
  }

  /** Enqueueing keeps the no-duplicate-texts invariant. */
  lemma EnqueuePreservesDistinct(items: seq<RevisionItem>, source: string, text: string)
    requires DistinctTexts(items)
    ensures DistinctTexts(Enqueue(items, source, text))
  {
    if !HasText(items, text) {
      var r := Enqueue(items, source, text);
      forall i, j | 0 <= i < j < |r| ensures r[i].text != r[j].text {
        if j == |items| {
          assert r[i] == items[i];
        }
      }
    }
  }

  /** The queue built by a whole session's calls of addRevisionItem, in call order. */
  function EnqueueAll(calls: seq<RevisionItem>): seq<RevisionItem> {
    if calls == [] then []
    else
      var last := calls[|calls| - 1];
      Enqueue(EnqueueAll(calls[..|calls| - 1]), last.source, last.text)
  }

  /** Starting from the empty queue, any sequence of calls yields a queue
      with distinct texts holding exactly the texts that were added, each
      entry being one of the calls made. */
  lemma {:induction false} EnqueueAllSpec(calls: seq<RevisionItem>)
    ensures DistinctTexts(EnqueueAll(calls))
    ensures forall t :: HasText(EnqueueAll(calls), t) <==> HasText(calls, t)
    ensures forall k :: 0 <= k < |EnqueueAll(calls)| ==> EnqueueAll(calls)[k] in calls
  {
    if calls != [] {
      var prefix := calls[..|calls| - 1];
      var last := calls[|calls| - 1];
      var q := EnqueueAll(prefix);
      EnqueueAllSpec(prefix);
      EnqueuePreservesDistinct(q, last.source, last.text);
      EnqueueShape(q, last.source, last.text);
      var r := EnqueueAll(calls);
      assert calls == prefix + [last];
      forall t ensures HasText(r, t) <==> HasText(calls, t) {
        if HasText(calls, t) {
          var i :| 0 <= i < |calls| && calls[i].text == t;
          if i < |prefix| {
            assert prefix[i].text == t;
            assert HasText(q, t);
            var k :| 0 <= k < |q| && q[k].text == t;
            assert r[k] == q[k];
          }
        }
        if HasText(r, t) {
          var k :| 0 <= k < |r| && r[k].text == t;
          if k < |q| {
            assert q[k].text == t;
            assert HasText(prefix, t);
            var i :| 0 <= i < |prefix| && prefix[i].text == t;
            assert calls[i] == prefix[i];
          } else {
            assert calls[|calls| - 1].text == t;
          }
        }
      }
      forall k | 0 <= k < |r| ensures r[k] in calls {
        if k < |q| {
          assert r[k] == q[k];
          assert q[k] in prefix;
        }
      }
    }
  }

  /** `item` is the first call made with its text. */
  predicate IsFirstWithText(calls: seq<RevisionItem>, item: RevisionItem) {
    exists i :: 0 <= i < |calls| && calls[i] == item &&
      forall j :: 0 <= j < i ==> calls[j].text != item.text
  }

  /** For a text added several times, the queue keeps the first call's
      source tag: every entry is the earliest call with its text. */
  lemma {:induction false} EnqueueAllKeepsFirst(calls: seq<RevisionItem>)
    ensures forall k :: 0 <= k < |EnqueueAll(calls)| ==> IsFirstWithText(calls, EnqueueAll(calls)[k])
  {
    if calls != [] {
      var prefix := calls[..|calls| - 1];
      var last := calls[|calls| - 1];
      var q := EnqueueAll(prefix);
      EnqueueAllKeepsFirst(prefix);
      EnqueueAllSpec(prefix);
      EnqueueShape(q, last.source, last.text);
      var r := EnqueueAll(calls);
      forall k | 0 <= k < |r| ensures IsFirstWithText(calls, r[k]) {
        if k < |q| {
          assert r[k] == q[k];
          assert IsFirstWithText(prefix, q[k]);
          var i :| 0 <= i < |prefix| && prefix[i] == q[k] &&
                   forall j :: 0 <= j < i ==> prefix[j].text != q[k].text;
          assert calls[i] == prefix[i];
          forall j | 0 <= j < i ensures calls[j].text != r[k].text {
            assert calls[j] == prefix[j];
          }
        } else {
          assert !HasText(q, last.text);
          assert !HasText(prefix, last.text);
          var i := |calls| - 1;
          assert calls[i] == r[k];
          forall j | 0 <= j < i ensures calls[j].text != r[k].text {
            assert calls[j] == prefix[j];
          }
        }
      }
    }
  }

  /** One row of the revision list: its 1-based number, source tag and question text. */
  datatype RevisionLine = RevisionLine(number: nat, source: string, text: string)

  /** What the revision screen shows: the numbered rows, whether the
      empty-queue message is visible, and the accuracy line. */
  datatype RevisionView = RevisionView(lines: seq<RevisionLine>, showEmptyMessage: bool, accuracy: string)

  /** The rows of the revision list, built by renderRevisionList's loop over the queue. */
  method RenderLines(items: seq<RevisionItem>) returns (lines: seq<RevisionLine>)
    ensures |lines| == |items|
    ensures forall i :: 0 <= i < |items| ==>
              lines[i] == RevisionLine(i + 1, items[i].source, items[i].text)
  {
    lines := [];
    var index := 0;
    while index < |items|
      invariant 0 <= index <= |items|
      invariant |lines| == index
      invariant forall i :: 0 <= i < index ==>
                  lines[i] == RevisionLine(i + 1, items[i].source, items[i].text)
    {
      lines := lines + [RevisionLine(index + 1, items[index].source, items[index].text)];
      index := index + 1;
    }
  }

  const NoAttemptsText := "No revision attempts yet."

  /** The accuracy line under the revision list. */
  function AccuracyText(attempts: nat, correct: nat): string {
    if attempts == 0 then NoAttemptsText
    else "Revision accuracy: " + NatToString(RoundedPercent(correct, attempts)) + "% over "
         + NatToString(attempts) + " attempts."
  }

  /** The "no attempts" text is shown exactly when nothing was attempted. */
  lemma AccuracyTextSpec(attempts: nat, correct: nat)
    ensures AccuracyText(attempts, correct) == NoAttemptsText <==> attempts == 0
  {
    if attempts > 0 {
      assert AccuracyText(attempts, correct)[0] == 'R';
    }
  }
}
