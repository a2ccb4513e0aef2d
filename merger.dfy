/**
 * The k-way merge: a pull-based merger over M sorted input views that
 * emits records in header order in batches, with an optional refill
 * protocol for inputs that arrive in chunks, and the one-shot merge built
 * on it.
 */
module Merging {
  import opened Records

  // ---------------------------------------------------------------------------
  // Sequences of record sequences
  // ---------------------------------------------------------------------------

  /** The sum of the input sizes. */
  function TotalSize(ss: seq<seq<Record>>): nat
  {
    if ss == [] then 0 else |ss[0]| + TotalSize(ss[1..])
  }

  /** Every record of every input, with multiplicity. */
  ghost function Bag(ss: seq<seq<Record>>): multiset<Record>
  {
    if ss == [] then multiset{} else multiset(ss[0]) + Bag(ss[1..])
  }

  lemma {:induction false} BagSize(ss: seq<seq<Record>>)
    ensures |Bag(ss)| == TotalSize(ss)
  {
    if ss != [] {
      BagSize(ss[1..]);
    }
  }

  /** Replacing one input changes the bag by exactly that input's change. */
  lemma {:induction false} BagUpdate(ss: seq<seq<Record>>, i: nat, x: seq<Record>)
    requires i < |ss|
    ensures Bag(ss[i := x]) + multiset(ss[i]) == Bag(ss) + multiset(x)
  {
    var ss' := ss[i := x];
    if i == 0 {
      assert ss'[1..] == ss[1..];
    } else {
      assert ss'[0] == ss[0] && ss'[1..] == ss[1..][i - 1 := x];
      BagUpdate(ss[1..], i - 1, x);
      calc {
        Bag(ss') + multiset(ss[i]);
        multiset(ss[0]) + (Bag(ss[1..][i - 1 := x]) + multiset(ss[1..][i - 1]));
        multiset(ss[0]) + (Bag(ss[1..]) + multiset(x));
        Bag(ss) + multiset(x);
      }
    }
  }

  lemma {:induction false} BagOfEmpties(ss: seq<seq<Record>>)
    requires forall i :: 0 <= i < |ss| ==> ss[i] == []
    ensures Bag(ss) == multiset{}
  {
    if ss != [] {
      BagOfEmpties(ss[1..]);
    }
  }

  lemma {:induction false} TotalSizeAppend(ss: seq<seq<Record>>, s: seq<Record>)
    ensures TotalSize(ss + [s]) == TotalSize(ss) + |s|
  {
    if ss == [] {
      assert ([] + [s])[1..] == [];
    } else {
      assert (ss + [s])[1..] == ss[1..] + [s];
      TotalSizeAppend(ss[1..], s);
    }
  }

  // ---------------------------------------------------------------------------
  // The merge state, as values
  // ---------------------------------------------------------------------------

  /** One cursor per input, none past the end of its view. */
  ghost predicate CursorsFit(views: seq<seq<Record>>, cursors: seq<nat>)
  {
    |cursors| == |views| && forall i :: 0 <= i < |views| ==> cursors[i] <= |views[i]|
  }

  /** The records of each input not yet emitted. */
  ghost function Pending(views: seq<seq<Record>>, cursors: seq<nat>): (p: seq<seq<Record>>)
    requires CursorsFit(views, cursors)
    ensures |p| == |views|
    ensures forall i :: 0 <= i < |views| ==> p[i] == views[i][cursors[i]..]
  {
    seq(|views|, i requires 0 <= i < |views| => views[i][cursors[i]..])
  }

  /** Input i is in the heap: its view has a pending head. */
  ghost predicate HasHead(views: seq<seq<Record>>, cursors: seq<nat>, i: int)
  {
    0 <= i < |views| && i < |cursors| && cursors[i] < |views[i]|
  }

  /** No input has a pending record. */
  ghost predicate Drained(views: seq<seq<Record>>, cursors: seq<nat>)
  {
    forall i :: 0 <= i < |views| && i < |cursors| ==> |views[i]| <= cursors[i]
  }

  /** The head of input i is no greater than any other pending head: it is the heap top. */
  ghost predicate LeastHead(views: seq<seq<Record>>, cursors: seq<nat>, i: int)
    requires HasHead(views, cursors, i)
  {
    forall j :: HasHead(views, cursors, j) ==> !HeaderLess(views[j][cursors[j]], views[i][cursors[i]])
  }

  /** v is the tail of s: its records are the last |v| records of s, in order. */
  ghost predicate IsSuffix(v: seq<Record>, s: seq<Record>)
  {
    |v| <= |s| && forall k :: 0 <= k < |v| ==> v[k] == s[|s| - |v| + k]
  }

  /** Each view is the tail of everything supplied for its input. */
  ghost predicate ViewsAreSuffixes(views: seq<seq<Record>>, streams: seq<seq<Record>>)
  {
    |streams| == |views| && forall i :: 0 <= i < |views| ==> IsSuffix(views[i], streams[i])
  }

  ghost predicate ViewsSorted(views: seq<seq<Record>>)
  {
    forall i :: 0 <= i < |views| ==> Sorted(views[i])
  }

  /** No pending head is below the last record emitted. */
  ghost predicate HeadsNotBelow(views: seq<seq<Record>>, cursors: seq<nat>, output: seq<Record>)
  {
    output != [] ==>
      forall i :: HasHead(views, cursors, i) ==> !HeaderLess(views[i][cursors[i]], output[|output| - 1])
  }

  /** Emitted plus pending is exactly what was supplied. */
  ghost predicate Accounted(views: seq<seq<Record>>, cursors: seq<nat>, streams: seq<seq<Record>>, output: seq<Record>)
  {
    CursorsFit(views, cursors) &&
    multiset(output) + Bag(Pending(views, cursors)) == Bag(streams)
  }

  /** A reported depletion: input `awaiting` is used up and its last record was the last one emitted. */
  ghost predicate DepletionReported(views: seq<seq<Record>>, cursors: seq<nat>, streams: seq<seq<Record>>,
                                    output: seq<Record>, awaiting: int, askForRefills: bool)
  {
    awaiting != -1 ==>
      && askForRefills
      && 0 <= awaiting < |views| && awaiting < |cursors| && awaiting < |streams|
      && cursors[awaiting] == |views[awaiting]|
      && streams[awaiting] != []
      && output != []
      && output[|output| - 1] == streams[awaiting][|streams[awaiting]| - 1]
  }

  /** With a single input, the output is that input's stream up to its cursor. */
  ghost predicate SingleInputInOrder(views: seq<seq<Record>>, cursors: seq<nat>, streams: seq<seq<Record>>, output: seq<Record>)
  {
    |views| == 1 && |cursors| == 1 && |streams| == 1 && |views[0]| <= |streams[0]| && cursors[0] <= |views[0]| ==>
      output == streams[0][..|streams[0]| - |views[0]| + cursors[0]]
  }

  /**
   * The merge invariant: views are sorted suffixes of their streams; what
   * has been emitted is sorted, is no greater than any pending head, and
   * together with what is pending is exactly what was supplied; a reported
   * depletion is the last thing emitted; with one input the output is that
   * input's stream so far.
   */
  ghost predicate MergeInvariant(views: seq<seq<Record>>, cursors: seq<nat>, streams: seq<seq<Record>>,
                                 output: seq<Record>, awaiting: int, askForRefills: bool)
  {
    && CursorsFit(views, cursors)
    && ViewsAreSuffixes(views, streams)
    && ViewsSorted(views)
    && Sorted(output)
    && HeadsNotBelow(views, cursors, output)
    && Accounted(views, cursors, streams, output)
    && DepletionReported(views, cursors, streams, output, awaiting, askForRefills)
    && SingleInputInOrder(views, cursors, streams, output)
  }

  /** Every input whose view had records at `before` and is used up at `after` is the reported one. */
  ghost predicate UsedUpReported(views: seq<seq<Record>>, before: seq<nat>, after: seq<nat>, depleted: int)
  {
    forall i :: 0 <= i < |views| && i < |before| && i < |after| && before[i] < |views[i]| && after[i] == |views[i]| ==>
      i == depleted
  }

  /** No cursor has moved backwards from `before` to `after`. */
  ghost predicate CursorsAdvanced(before: seq<nat>, after: seq<nat>)
  {
    |after| == |before| && forall i :: 0 <= i < |before| ==> before[i] <= after[i]
  }

  // ---------------------------------------------------------------------------
  // Transitions of the merge state
  // ---------------------------------------------------------------------------

  /** A fresh merger over sorted partitions: nothing emitted, everything pending. */
  lemma StartKeepsInvariant(partitions: seq<seq<Record>>, askForRefills: bool)
    requires forall i :: 0 <= i < |partitions| ==> Sorted(partitions[i])
    ensures var zeros := seq(|partitions|, _ => 0);
      && CursorsFit(partitions, zeros)
      && Pending(partitions, zeros) == partitions
      && MergeInvariant(partitions, zeros, partitions, [], -1, askForRefills)
  {
    var zeros: seq<nat> := seq(|partitions|, _ => 0);
    assert CursorsFit(partitions, zeros);
    var p := Pending(partitions, zeros);
    assert forall i :: 0 <= i < |partitions| ==> p[i] == partitions[i][0..] == partitions[i];
    assert p == partitions;
  }

  /** Advancing cursor i drops exactly the head of input i from what is pending. */
  lemma PendingAdvance(views: seq<seq<Record>>, cursors: seq<nat>, i: nat)
    requires CursorsFit(views, cursors) && HasHead(views, cursors, i)
    ensures CursorsFit(views, cursors[i := cursors[i] + 1])
    ensures var p := Pending(views, cursors);
      Pending(views, cursors[i := cursors[i] + 1]) == p[i := p[i][1..]] && p[i] == [views[i][cursors[i]]] + p[i][1..]
  {
    var c' := cursors[i := cursors[i] + 1];
    assert CursorsFit(views, c');
    var p, p' := Pending(views, cursors), Pending(views, c');
    assert forall j :: 0 <= j < |views| ==> p'[j] == p[i := p[i][1..]][j];
  }

  /** Emitting the heap top keeps the output sorted and below every pending head. */
  lemma PopKeepsOrder(views: seq<seq<Record>>, cursors: seq<nat>, output: seq<Record>, i: nat)
    requires CursorsFit(views, cursors) && ViewsSorted(views) && Sorted(output)
    requires HeadsNotBelow(views, cursors, output)
    requires HasHead(views, cursors, i) && LeastHead(views, cursors, i)
    ensures var r := views[i][cursors[i]];
      Sorted(output + [r]) && HeadsNotBelow(views, cursors[i := cursors[i] + 1], output + [r])
  {
    var r := views[i][cursors[i]];
    var out := output + [r];
    forall p, q | 0 <= p < q < |out|
      ensures !HeaderLess(out[q], out[p])
    {
      if q == |output| {
        var last := output[|output| - 1];
        HeaderLessIsRankLess(r, last);
        HeaderLessIsRankLess(last, output[p]);
        HeaderLessIsRankLess(r, output[p]);
      }
    }
    var c' := cursors[i := cursors[i] + 1];
    forall j | HasHead(views, c', j)
      ensures !HeaderLess(views[j][c'[j]], r)
    {
      if j != i {
        assert HasHead(views, cursors, j);
      }
    }
  }

  /** Emitting the heap top moves exactly that record from pending to output. */
  lemma PopKeepsAccount(views: seq<seq<Record>>, cursors: seq<nat>, streams: seq<seq<Record>>, output: seq<Record>, i: nat)
    requires Accounted(views, cursors, streams, output) && HasHead(views, cursors, i)
    ensures var r := views[i][cursors[i]];
      var c' := cursors[i := cursors[i] + 1];
      && Accounted(views, c', streams, output + [r])
      && Bag(Pending(views, cursors)) == multiset{r} + Bag(Pending(views, c'))
  {
    var r := views[i][cursors[i]];
    var c' := cursors[i := cursors[i] + 1];
    var p := Pending(views, cursors);
    PendingAdvance(views, cursors, i);
    var p' := Pending(views, c');
    var tail := p[i][1..];
    BagUpdate(p, i, tail);
    assert multiset(p[i]) == multiset{r} + multiset(tail);
    assert (multiset{r} + Bag(p')) + multiset(tail) == Bag(p) + multiset(tail);
    MultisetCancel(multiset{r} + Bag(p'), Bag(p), multiset(tail));
    assert multiset(output + [r]) == multiset(output) + multiset{r};
  }

  /** With one input, emitting its head extends the output by the next record of its stream. */
  lemma PopKeepsSingleInput(views: seq<seq<Record>>, cursors: seq<nat>, streams: seq<seq<Record>>, output: seq<Record>, i: nat)
    requires CursorsFit(views, cursors) && ViewsAreSuffixes(views, streams)
    requires SingleInputInOrder(views, cursors, streams, output) && HasHead(views, cursors, i)
    ensures SingleInputInOrder(views, cursors[i := cursors[i] + 1], streams, output + [views[i][cursors[i]]])
  {
    if |views| == 1 {
      var s, v := streams[0], views[0];
      var consumed := |s| - |v| + cursors[0];
      assert IsSuffix(v, s);
      assert s[consumed] == v[cursors[0]];
      assert s[..consumed + 1] == s[..consumed] + [s[consumed]];
    }
  }

  /** Emitting the heap top keeps the whole merge invariant. */
  lemma PopKeepsInvariant(views: seq<seq<Record>>, cursors: seq<nat>, streams: seq<seq<Record>>,
                          output: seq<Record>, askForRefills: bool, i: nat)
    requires MergeInvariant(views, cursors, streams, output, -1, askForRefills)
    requires HasHead(views, cursors, i) && LeastHead(views, cursors, i)
    ensures var r := views[i][cursors[i]];
      var c' := cursors[i := cursors[i] + 1];
      && MergeInvariant(views, c', streams, output + [r], -1, askForRefills)
      && Bag(Pending(views, cursors)) == multiset{r} + Bag(Pending(views, c'))
  {
    PendingAdvance(views, cursors, i);
    PopKeepsOrder(views, cursors, output, i);
    PopKeepsAccount(views, cursors, streams, output, i);
    PopKeepsSingleInput(views, cursors, streams, output, i);
  }

  /** When refills are asked for, an input whose last record was just emitted may be reported depleted. */
  lemma DepletionKeepsInvariant(views: seq<seq<Record>>, cursors: seq<nat>, streams: seq<seq<Record>>,
                                output: seq<Record>, i: nat)
    requires MergeInvariant(views, cursors, streams, output, -1, true)
    requires i < |views| && 0 < cursors[i] == |views[i]|
    requires output != [] && output[|output| - 1] == views[i][|views[i]| - 1]
    ensures MergeInvariant(views, cursors, streams, output, i, true)
  {
    var s, v := streams[i], views[i];
    assert IsSuffix(v, s);
    assert s[|s| - 1] == v[|v| - 1];
  }

  /** Refilling input id, whose view is used up, makes the chunk its only pending records. */
  lemma PendingRefill(views: seq<seq<Record>>, cursors: seq<nat>, id: nat, part: seq<Record>)
    requires CursorsFit(views, cursors) && id < |views| && cursors[id] == |views[id]|
    ensures CursorsFit(views[id := part], cursors[id := 0])
    ensures var p := Pending(views, cursors);
      p[id] == [] && Pending(views[id := part], cursors[id := 0]) == p[id := part]
  {
    var views', cursors' := views[id := part], cursors[id := 0];
    assert CursorsFit(views', cursors');
    var p, p' := Pending(views, cursors), Pending(views', cursors');
    assert forall j :: 0 <= j < |views| ==> p'[j] == p[id := part][j];
  }

  /** A refill adds the chunk both to what was supplied and to what is pending. */
  lemma RefillKeepsAccount(views: seq<seq<Record>>, cursors: seq<nat>, streams: seq<seq<Record>>,
                           output: seq<Record>, id: nat, part: seq<Record>)
    requires Accounted(views, cursors, streams, output)
    requires id < |views| == |streams| && cursors[id] == |views[id]|
    ensures Accounted(views[id := part], cursors[id := 0], streams[id := streams[id] + part], output)
  {
    var p := Pending(views, cursors);
    PendingRefill(views, cursors, id, part);
    var p' := Pending(views[id := part], cursors[id := 0]);
    var s := streams[id := streams[id] + part];
    BagUpdate(p, id, part);
    BagUpdate(streams, id, s[id]);
    assert multiset(s[id]) == multiset(streams[id]) + multiset(part);
    assert Bag(p') == Bag(p) + multiset(part);
    assert (Bag(s) + multiset(streams[id])) == (Bag(streams) + multiset(part)) + multiset(streams[id]);
    MultisetCancel(Bag(s), Bag(streams) + multiset(part), multiset(streams[id]));
  }

  /** A chunk that continues its stream keeps every pending head at or above the last record emitted. */
  lemma RefillKeepsOrder(views: seq<seq<Record>>, cursors: seq<nat>, output: seq<Record>, id: nat, part: seq<Record>)
    requires CursorsFit(views, cursors) && HeadsNotBelow(views, cursors, output) && id < |views|
    requires output != [] && part != [] ==> !HeaderLess(part[0], output[|output| - 1])
    ensures HeadsNotBelow(views[id := part], cursors[id := 0], output)
  {
    var views', cursors' := views[id := part], cursors[id := 0];
    if output != [] {
      forall j | HasHead(views', cursors', j)
        ensures !HeaderLess(views'[j][cursors'[j]], output[|output| - 1])
      {
        if j != id {
          assert HasHead(views, cursors, j);
        }
      }
    }
  }

  /** A refill appends the chunk to its stream, so the view is again a suffix of the stream. */
  lemma RefillKeepsSuffixes(views: seq<seq<Record>>, streams: seq<seq<Record>>, id: nat, part: seq<Record>)
    requires ViewsAreSuffixes(views, streams) && id < |views|
    ensures ViewsAreSuffixes(views[id := part], streams[id := streams[id] + part])
  {
    var s := streams[id] + part;
    assert IsSuffix(part, s);
    var views', streams' := views[id := part], streams[id := s];
    forall j | 0 <= j < |views'|
      ensures IsSuffix(views'[j], streams'[j])
    {
      if j != id {
        assert IsSuffix(views[j], streams[j]);
      }
    }
  }

  /**
   * Refilling a reported input with a sorted chunk that continues its
   * stream keeps the merge invariant, and clears the report.
   */
  lemma RefillKeepsInvariant(views: seq<seq<Record>>, cursors: seq<nat>, streams: seq<seq<Record>>,
                             output: seq<Record>, askForRefills: bool, id: nat, part: seq<Record>)
    requires MergeInvariant(views, cursors, streams, output, id, askForRefills)
    requires Sorted(part)
    requires id < |streams| && (part != [] ==> !HeaderLess(part[0], streams[id][|streams[id]| - 1]))
    ensures var views', cursors' := views[id := part], cursors[id := 0];
      && CursorsFit(views', cursors')
      && Pending(views', cursors') == Pending(views, cursors)[id := part]
      && MergeInvariant(views', cursors', streams[id := streams[id] + part], output, -1, askForRefills)
  {
    PendingRefill(views, cursors, id, part);
    RefillKeepsAccount(views, cursors, streams, output, id, part);
    RefillKeepsOrder(views, cursors, output, id, part);
    RefillKeepsSuffixes(views, streams, id, part);
    if |views| == 1 {
      var s := streams[0] + part;
      assert s[..|streams[0]|] == streams[0];
    }
  }

  /** What is pending is what was supplied minus what was emitted; nothing is pending once drained. */
  lemma PendingCount(views: seq<seq<Record>>, cursors: seq<nat>, streams: seq<seq<Record>>, output: seq<Record>)
    requires Accounted(views, cursors, streams, output)
    ensures |Bag(Pending(views, cursors))| + |output| == |Bag(streams)|
    ensures Drained(views, cursors) ==> Bag(Pending(views, cursors)) == multiset{}
  {
    var p := Pending(views, cursors);
    assert |multiset(output)| + |Bag(p)| == |Bag(streams)|;
    if Drained(views, cursors) {
      BagOfEmpties(p);
    }
  }

  // ---------------------------------------------------------------------------
  // The heap top and one batch, as functions
  // ---------------------------------------------------------------------------

  /**
   * The heap top among the first n inputs: the first input whose pending
   * head is least, or -1 when none of them has a pending head.
   */
  function Top(views: seq<seq<Record>>, cursors: seq<nat>, n: nat): (t: int)
    requires CursorsFit(views, cursors) && n <= |views|
    ensures -1 <= t < n
    ensures t != -1 ==> HasHead(views, cursors, t)
  {
    if n == 0 then -1
    else
      var t := Top(views, cursors, n - 1);
      if cursors[n - 1] < |views[n - 1]| && (t == -1 || HeaderLess(views[n - 1][cursors[n - 1]], views[t][cursors[t]]))
      then n - 1
      else t
  }

  /** Top finds a pending head among the first n inputs exactly when there is one. */
  lemma {:induction false} TopFindsHead(views: seq<seq<Record>>, cursors: seq<nat>, n: nat)
    requires CursorsFit(views, cursors) && n <= |views|
    ensures Top(views, cursors, n) == -1 <==> forall j :: 0 <= j < n ==> !HasHead(views, cursors, j)
  {
    if n > 0 {
      TopFindsHead(views, cursors, n - 1);
    }
  }

  /** No pending head among the first n inputs is below the one Top picks. */
  lemma {:induction false} TopIsLeast(views: seq<seq<Record>>, cursors: seq<nat>, n: nat)
    requires CursorsFit(views, cursors) && n <= |views|
    ensures var t := Top(views, cursors, n);
      t != -1 ==> forall j :: 0 <= j < n && HasHead(views, cursors, j) ==>
                    !HeaderLess(views[j][cursors[j]], views[t][cursors[t]])
  {
    if n > 0 {
      TopIsLeast(views, cursors, n - 1);
      var t, u := Top(views, cursors, n), Top(views, cursors, n - 1);
      if t == n - 1 && u != -1 {
        TopOvertakes(views, cursors, n, u);
      } else if t == n - 1 {
        TopFindsHead(views, cursors, n - 1);
        HeaderLessIrreflexive(views[t][cursors[t]]);
      } else if t != -1 && HasHead(views, cursors, n - 1) {
        HeaderLessTotal(views[n - 1][cursors[n - 1]], views[t][cursors[t]]);
      }
    }
  }

  /** When input n - 1 overtakes the top u of the first n - 1 inputs, it is below every head u was not above. */
  lemma TopOvertakes(views: seq<seq<Record>>, cursors: seq<nat>, n: nat, u: int)
    requires CursorsFit(views, cursors) && 0 < n <= |views|
    requires u == Top(views, cursors, n - 1) && u != -1 && Top(views, cursors, n) == n - 1
    requires forall j :: 0 <= j < n - 1 && HasHead(views, cursors, j) ==>
               !HeaderLess(views[j][cursors[j]], views[u][cursors[u]])
    ensures forall j :: 0 <= j < n && HasHead(views, cursors, j) ==>
              !HeaderLess(views[j][cursors[j]], views[n - 1][cursors[n - 1]])
  {
    var h := views[n - 1][cursors[n - 1]];
    forall j | 0 <= j < n && HasHead(views, cursors, j)
      ensures !HeaderLess(views[j][cursors[j]], h)
    {
      if j < n - 1 {
        HeaderLessIsRankLess(views[j][cursors[j]], views[u][cursors[u]]);
        HeaderLessIsRankLess(h, views[u][cursors[u]]);
        HeaderLessIsRankLess(views[j][cursors[j]], h);
      } else {
        HeaderLessIrreflexive(h);
      }
    }
  }

  /** Over all inputs, Top is -1 exactly when every view is used up. */
  lemma TopDrained(views: seq<seq<Record>>, cursors: seq<nat>)
    requires CursorsFit(views, cursors)
    ensures Top(views, cursors, |views|) == -1 <==> Drained(views, cursors)
  {
    TopFindsHead(views, cursors, |views|);
    if !Drained(views, cursors) {
      var j :| 0 <= j < |views| && j < |cursors| && cursors[j] < |views[j]|;
      assert HasHead(views, cursors, j);
    }
  }

  /** Over all inputs, Top is the heap top: -1 exactly when drained, otherwise a least pending head. */
  lemma TopIsHeapTop(views: seq<seq<Record>>, cursors: seq<nat>)
    requires CursorsFit(views, cursors)
    ensures var t := Top(views, cursors, |views|);
      && (t == -1 <==> Drained(views, cursors))
      && (t != -1 ==> HasHead(views, cursors, t) && LeastHead(views, cursors, t))
  {
    TopDrained(views, cursors);
    TopIsLeast(views, cursors, |views|);
  }

  /** What one GetBatch call does to a merge state. */
  datatype BatchResult = BatchResult(cursors: seq<nat>, emitted: seq<Record>, depleted: int)

  /** A batch result whose emitted records come after `first`. */
  function After(first: seq<Record>, b: BatchResult): BatchResult
  {
    BatchResult(b.cursors, first + b.emitted, b.depleted)
  }

  /**
   * One batch of at most maxNum records: pop the heap top until the batch is
   * full or every view is used up; with refills asked for, stop right after
   * the record that uses up an input's view and report that input.
   */
  function Batch(views: seq<seq<Record>>, cursors: seq<nat>, maxNum: nat, askForRefills: bool): BatchResult
    requires CursorsFit(views, cursors)
    decreases maxNum
  {
    if maxNum == 0 then BatchResult(cursors, [], -1)
    else
      var i := Top(views, cursors, |views|);
      if i == -1 then BatchResult(cursors, [], -1)
      else
        var r := views[i][cursors[i]];
        var c' := cursors[i := cursors[i] + 1];
        assert CursorsFit(views, c');
        if askForRefills && c'[i] == |views[i]| then BatchResult(c', [r], i)
        else After([r], Batch(views, c', maxNum - 1, askForRefills))
  }

  /** One step of Batch: the heap top is popped, and the batch either ends there with a report or goes on. */
  lemma BatchStep(views: seq<seq<Record>>, cursors: seq<nat>, maxNum: nat, askForRefills: bool)
    requires CursorsFit(views, cursors) && maxNum > 0 && Top(views, cursors, |views|) != -1
    ensures var i := Top(views, cursors, |views|);
      var c' := cursors[i := cursors[i] + 1];
      && CursorsFit(views, c')
      && Batch(views, cursors, maxNum, askForRefills) ==
           if askForRefills && c'[i] == |views[i]| then BatchResult(c', [views[i][cursors[i]]], i)
           else After([views[i][cursors[i]]], Batch(views, c', maxNum - 1, askForRefills))
  {
  }

  /** A batch with no room left or no pending head emits nothing. */
  lemma BatchStop(views: seq<seq<Record>>, cursors: seq<nat>, maxNum: nat, askForRefills: bool)
    requires CursorsFit(views, cursors) && (maxNum == 0 || Top(views, cursors, |views|) == -1)
    ensures Batch(views, cursors, maxNum, askForRefills) == BatchResult(cursors, [], -1)
  {
  }

  lemma AfterAppend(first: seq<Record>, r: Record, b: BatchResult)
    ensures After(first, After([r], b)) == After(first + [r], b)
  {
    assert first + ([r] + b.emitted) == (first + [r]) + b.emitted;
  }

  /**
   * The shape of a batch: at most maxNum records, cursors only move forward,
   * a reported input is used up and its last record ends the batch, a short
   * batch without a report means every view is used up, a drained state
   * yields nothing, with refills asked for a view used up by the batch
   * is the one reported, and a reported input still had records when the
   * batch began.
   */
  lemma BatchShape(views: seq<seq<Record>>, cursors: seq<nat>, maxNum: nat, askForRefills: bool)
    requires CursorsFit(views, cursors)
    ensures var b := Batch(views, cursors, maxNum, askForRefills);
      && CursorsFit(views, b.cursors)
      && |b.emitted| <= maxNum
      && CursorsAdvanced(cursors, b.cursors)
      && (b.depleted != -1 ==>
            && askForRefills && 0 <= b.depleted < |views| && 0 < b.cursors[b.depleted] == |views[b.depleted]|
            && b.emitted != [] && b.emitted[|b.emitted| - 1] == views[b.depleted][|views[b.depleted]| - 1])
      && (b.depleted == -1 && |b.emitted| < maxNum ==> Drained(views, b.cursors))
      && (Drained(views, cursors) ==> b.emitted == [] && b.depleted == -1)
      && (maxNum > 0 && !Drained(views, cursors) ==> b.emitted != [])
      && (askForRefills ==> UsedUpReported(views, cursors, b.cursors, b.depleted))
      && (b.depleted != -1 ==> cursors[b.depleted] < |views[b.depleted]|)
  {
    BatchAdvances(views, cursors, maxNum, askForRefills);
    BatchReportsDepletion(views, cursors, maxNum, askForRefills);
    BatchReportsFresh(views, cursors, maxNum, askForRefills);
    BatchReport(views, cursors, maxNum, askForRefills);
    BatchShortMeansDrained(views, cursors, maxNum, askForRefills);
    TopDrained(views, cursors);
    if Drained(views, cursors) || maxNum == 0 {
      BatchStop(views, cursors, maxNum, askForRefills);
    } else {
      BatchStep(views, cursors, maxNum, askForRefills);
    }
  }

  /** A batch keeps the cursors in range, moves them only forward and emits at most maxNum records. */
  lemma {:induction false} BatchAdvances(views: seq<seq<Record>>, cursors: seq<nat>, maxNum: nat, askForRefills: bool)
    requires CursorsFit(views, cursors)
    ensures var b := Batch(views, cursors, maxNum, askForRefills);
      CursorsFit(views, b.cursors) && |b.emitted| <= maxNum && CursorsAdvanced(cursors, b.cursors)
    decreases maxNum
  {
    var i := Top(views, cursors, |views|);
    if maxNum == 0 || i == -1 {
      BatchStop(views, cursors, maxNum, askForRefills);
    } else {
      BatchStep(views, cursors, maxNum, askForRefills);
      var c' := cursors[i := cursors[i] + 1];
      if !(askForRefills && c'[i] == |views[i]|) {
        BatchAdvances(views, c', maxNum - 1, askForRefills);
      }
    }
  }

  /** A reported input is used up, and the last record of its view ends the batch. */
  lemma {:induction false} BatchReport(views: seq<seq<Record>>, cursors: seq<nat>, maxNum: nat, askForRefills: bool)
    requires CursorsFit(views, cursors)
    ensures var b := Batch(views, cursors, maxNum, askForRefills);
      b.depleted != -1 ==>
        && askForRefills && 0 <= b.depleted < |views| && b.depleted < |b.cursors|
        && 0 < b.cursors[b.depleted] == |views[b.depleted]|
        && b.emitted != [] && b.emitted[|b.emitted| - 1] == views[b.depleted][|views[b.depleted]| - 1]
    decreases maxNum
  {
    var i := Top(views, cursors, |views|);
    if maxNum == 0 || i == -1 {
      BatchStop(views, cursors, maxNum, askForRefills);
    } else {
      BatchStep(views, cursors, maxNum, askForRefills);
      var c' := cursors[i := cursors[i] + 1];
      if !(askForRefills && c'[i] == |views[i]|) {
        BatchReport(views, c', maxNum - 1, askForRefills);
        var rest := Batch(views, c', maxNum - 1, askForRefills);
        if rest.depleted != -1 {
          assert ([views[i][cursors[i]]] + rest.emitted)[|rest.emitted|] == rest.emitted[|rest.emitted| - 1];
        }
      }
    }
  }

  /** With refills asked for, a view that the batch uses up is reported: the batch stops right there. */
  lemma {:induction false} BatchReportsDepletion(views: seq<seq<Record>>, cursors: seq<nat>, maxNum: nat, askForRefills: bool)
    requires CursorsFit(views, cursors)
    ensures var b := Batch(views, cursors, maxNum, askForRefills);
      askForRefills ==> UsedUpReported(views, cursors, b.cursors, b.depleted)
    decreases maxNum
  {
    var i := Top(views, cursors, |views|);
    if maxNum == 0 || i == -1 {
      BatchStop(views, cursors, maxNum, askForRefills);
    } else {
      BatchStep(views, cursors, maxNum, askForRefills);
      var c' := cursors[i := cursors[i] + 1];
      if !(askForRefills && c'[i] == |views[i]|) {
        BatchReportsDepletion(views, c', maxNum - 1, askForRefills);
      }
    }
  }

  /** A reported input still had a pending head when the batch began: no input is reported twice. */
  lemma {:induction false} BatchReportsFresh(views: seq<seq<Record>>, cursors: seq<nat>, maxNum: nat, askForRefills: bool)
    requires CursorsFit(views, cursors)
    ensures var b := Batch(views, cursors, maxNum, askForRefills);
      b.depleted != -1 ==> 0 <= b.depleted < |views| && cursors[b.depleted] < |views[b.depleted]|
    decreases maxNum
  {
    var i := Top(views, cursors, |views|);
    if maxNum == 0 || i == -1 {
      BatchStop(views, cursors, maxNum, askForRefills);
    } else {
      BatchStep(views, cursors, maxNum, askForRefills);
      var c' := cursors[i := cursors[i] + 1];
      if !(askForRefills && c'[i] == |views[i]|) {
        BatchReportsFresh(views, c', maxNum - 1, askForRefills);
      }
    }
  }

  /** A batch that is neither full nor ended by a report leaves every view used up. */
  lemma {:induction false} BatchShortMeansDrained(views: seq<seq<Record>>, cursors: seq<nat>, maxNum: nat, askForRefills: bool)
    requires CursorsFit(views, cursors)
    ensures var b := Batch(views, cursors, maxNum, askForRefills);
      CursorsFit(views, b.cursors) && (b.depleted == -1 && |b.emitted| < maxNum ==> Drained(views, b.cursors))
    decreases maxNum
  {
    var i := Top(views, cursors, |views|);
    if maxNum == 0 || i == -1 {
      BatchStop(views, cursors, maxNum, askForRefills);
      TopDrained(views, cursors);
    } else {
      BatchStep(views, cursors, maxNum, askForRefills);
      var c' := cursors[i := cursors[i] + 1];
      if !(askForRefills && c'[i] == |views[i]|) {
        BatchShortMeansDrained(views, c', maxNum - 1, askForRefills);
      }
    }
  }

  /** Putting r in front of a batch taken after popping r keeps what that batch keeps. */
  lemma AfterKeepsInvariant(views: seq<seq<Record>>, cursors: seq<nat>, c': seq<nat>, streams: seq<seq<Record>>,
                            output: seq<Record>, r: Record, rest: BatchResult, b: BatchResult, askForRefills: bool)
    requires CursorsFit(views, cursors) && CursorsFit(views, c') && CursorsFit(views, rest.cursors)
    requires MergeInvariant(views, rest.cursors, streams, (output + [r]) + rest.emitted, rest.depleted, askForRefills)
    requires Bag(Pending(views, cursors)) == multiset{r} + Bag(Pending(views, c'))
    requires Bag(Pending(views, c')) == multiset(rest.emitted) + Bag(Pending(views, rest.cursors))
    requires b == After([r], rest)
    ensures CursorsFit(views, b.cursors)
    ensures MergeInvariant(views, b.cursors, streams, output + b.emitted, b.depleted, askForRefills)
    ensures Bag(Pending(views, cursors)) == multiset(b.emitted) + Bag(Pending(views, b.cursors))
  {
    assert (output + [r]) + rest.emitted == output + b.emitted;
    assert multiset(b.emitted) == multiset{r} + multiset(rest.emitted);
  }

  /**
   * A batch keeps the merge invariant: the records it emits, appended to the
   * output, keep the output sorted and below every pending head, and are
   * exactly what left the pending records.
   */
  lemma {:induction false} BatchKeepsInvariant(views: seq<seq<Record>>, cursors: seq<nat>, streams: seq<seq<Record>>,
                                               output: seq<Record>, maxNum: nat, askForRefills: bool, b: BatchResult)
    requires MergeInvariant(views, cursors, streams, output, -1, askForRefills)
    requires b == Batch(views, cursors, maxNum, askForRefills)
    ensures CursorsFit(views, b.cursors)
    ensures MergeInvariant(views, b.cursors, streams, output + b.emitted, b.depleted, askForRefills)
    ensures Bag(Pending(views, cursors)) == multiset(b.emitted) + Bag(Pending(views, b.cursors))
    decreases maxNum, 2
  {
    var i := Top(views, cursors, |views|);
    if maxNum == 0 || i == -1 {
      assert output + [] == output;
    } else if askForRefills && cursors[i] + 1 == |views[i]| {
      DepletingPopKeepsInvariant(views, cursors, streams, output, maxNum);
    } else {
      PoppingKeepsInvariant(views, cursors, streams, output, maxNum, askForRefills);
    }
  }

  /** The case of BatchKeepsInvariant where the first record popped uses up its view and is reported. */
  lemma DepletingPopKeepsInvariant(views: seq<seq<Record>>, cursors: seq<nat>, streams: seq<seq<Record>>,
                                   output: seq<Record>, maxNum: nat)
    requires MergeInvariant(views, cursors, streams, output, -1, true)
    requires maxNum > 0 && Top(views, cursors, |views|) != -1
    requires var i := Top(views, cursors, |views|); cursors[i] + 1 == |views[i]|
    ensures var b := Batch(views, cursors, maxNum, true);
      && CursorsFit(views, b.cursors)
      && MergeInvariant(views, b.cursors, streams, output + b.emitted, b.depleted, true)
      && Bag(Pending(views, cursors)) == multiset(b.emitted) + Bag(Pending(views, b.cursors))
  {
    TopIsHeapTop(views, cursors);
    var i := Top(views, cursors, |views|);
    var r := views[i][cursors[i]];
    var c' := cursors[i := cursors[i] + 1];
    PopKeepsInvariant(views, cursors, streams, output, true, i);
    assert Batch(views, cursors, maxNum, true) == BatchResult(c', [r], i);
    DepletionKeepsInvariant(views, c', streams, output + [r], i);
  }

  /** The case of BatchKeepsInvariant where the batch goes on after the first record popped. */
  lemma PoppingKeepsInvariant(views: seq<seq<Record>>, cursors: seq<nat>, streams: seq<seq<Record>>,
                              output: seq<Record>, maxNum: nat, askForRefills: bool)
    requires MergeInvariant(views, cursors, streams, output, -1, askForRefills)
    requires maxNum > 0 && Top(views, cursors, |views|) != -1
    requires var i := Top(views, cursors, |views|); !(askForRefills && cursors[i] + 1 == |views[i]|)
    ensures var b := Batch(views, cursors, maxNum, askForRefills);
      && CursorsFit(views, b.cursors)
      && MergeInvariant(views, b.cursors, streams, output + b.emitted, b.depleted, askForRefills)
      && Bag(Pending(views, cursors)) == multiset(b.emitted) + Bag(Pending(views, b.cursors))
    decreases maxNum, 1
  {
    TopIsHeapTop(views, cursors);
    var i := Top(views, cursors, |views|);
    var r := views[i][cursors[i]];
    var c' := cursors[i := cursors[i] + 1];
    PopKeepsInvariant(views, cursors, streams, output, askForRefills, i);
    assert Batch(views, cursors, maxNum, askForRefills) == After([r], Batch(views, c', maxNum - 1, askForRefills));
    BatchAfterPopKeepsInvariant(views, cursors, c', streams, output, r, maxNum, askForRefills,
                                Batch(views, c', maxNum - 1, askForRefills), Batch(views, cursors, maxNum, askForRefills));
  }

  /** A batch that starts with the popped record r keeps the invariant that popping r kept. */
  lemma {:induction false} BatchAfterPopKeepsInvariant(views: seq<seq<Record>>, cursors: seq<nat>, c': seq<nat>,
                                                       streams: seq<seq<Record>>, output: seq<Record>, r: Record,
                                                       maxNum: nat, askForRefills: bool, rest: BatchResult, b: BatchResult)
    requires CursorsFit(views, cursors) && CursorsFit(views, c') && maxNum > 0
    requires rest == Batch(views, c', maxNum - 1, askForRefills) && b == After([r], rest)
    requires MergeInvariant(views, c', streams, output + [r], -1, askForRefills)
    requires Bag(Pending(views, cursors)) == multiset{r} + Bag(Pending(views, c'))
    ensures CursorsFit(views, b.cursors)
    ensures MergeInvariant(views, b.cursors, streams, output + b.emitted, b.depleted, askForRefills)
    ensures Bag(Pending(views, cursors)) == multiset(b.emitted) + Bag(Pending(views, b.cursors))
    decreases maxNum, 0
  {
    BatchKeepsInvariant(views, c', streams, output + [r], maxNum - 1, askForRefills, rest);
    AfterKeepsInvariant(views, cursors, c', streams, output, r, rest, b, askForRefills);
  }

  // ---------------------------------------------------------------------------
  // The merge loop
  // ---------------------------------------------------------------------------

  /** The heap top: the input whose pending head is least, or -1 when every view is used up. */
  method MinHead(views: seq<seq<Record>>, cursors: seq<nat>) returns (best: int)
    requires CursorsFit(views, cursors)
    ensures best == Top(views, cursors, |views|)
  {
    best := -1;
    var i := 0;
    while i < |views|
      invariant 0 <= i <= |views|
      invariant best == Top(views, cursors, i)
    {
      if cursors[i] < |views[i]| && (best == -1 || HeaderLess(views[i][cursors[i]], views[best][cursors[best]])) {
        best := i;
      }
      i := i + 1;
    }
  }

  /** Writes r to ret[at + count], extending what ret[at..] holds from batch to batch + [r]. */
  method Put(ret: array<Record>, at: nat, count: nat, ghost batch: seq<Record>, r: Record)
    requires |batch| == count && at + count < ret.Length
    requires forall k :: 0 <= k < count ==> ret[at + k] == batch[k]
    modifies ret
    ensures forall k :: 0 <= k < count + 1 ==> ret[at + k] == (batch + [r])[k]
    ensures forall k :: 0 <= k < ret.Length && k != at + count ==> ret[k] == old(ret[k])
  {
    ret[at + count] := r;
  }

  /** Writing batch at offset at, and nothing else, leaves the rest of the sequence as it was. */
  lemma Spliced(before: seq<Record>, after: seq<Record>, at: nat, batch: seq<Record>)
    requires |before| == |after| && at + |batch| <= |after|
    requires forall k :: 0 <= k < |batch| ==> after[at + k] == batch[k]
    requires forall k :: 0 <= k < |after| && !(at <= k < at + |batch|) ==> after[k] == before[k]
    ensures after[at..at + |batch|] == batch
    ensures after[..at] == before[..at] && after[at + |batch|..] == before[at + |batch|..]
  {
  }

  /**
   * A pop of the merge loop that uses up input i's view with refills asked
   * for: when batch has been emitted so far and the rest of the batch is
   * taken from cs, the batch ends with the popped record and reports i.
   */
  lemma PopEndsBatch(views: seq<seq<Record>>, cursors: seq<nat>, cs: seq<nat>, maxNum: nat, count: nat,
                     batch: seq<Record>, askForRefills: bool, i: int)
    requires CursorsFit(views, cursors) && CursorsFit(views, cs) && count < maxNum
    requires i == Top(views, cs, |views|) && i != -1
    requires askForRefills && cs[i] + 1 == |views[i]|
    requires Batch(views, cursors, maxNum, askForRefills) == After(batch, Batch(views, cs, maxNum - count, askForRefills))
    ensures Batch(views, cursors, maxNum, askForRefills) ==
      BatchResult(cs[i := cs[i] + 1], batch + [views[i][cs[i]]], i)
  {
    BatchStep(views, cs, maxNum - count, askForRefills);
  }

  /**
   * A pop of the merge loop that does not end the batch: when batch has been
   * emitted so far and the rest is taken from cs, after popping input i's
   * head the rest is taken from the advanced cursors.
   */
  lemma PopExtendsBatch(views: seq<seq<Record>>, cursors: seq<nat>, cs: seq<nat>, maxNum: nat, count: nat,
                        batch: seq<Record>, askForRefills: bool, i: int)
    requires CursorsFit(views, cursors) && CursorsFit(views, cs) && count < maxNum
    requires i == Top(views, cs, |views|) && i != -1
    requires !(askForRefills && cs[i] + 1 == |views[i]|)
    requires Batch(views, cursors, maxNum, askForRefills) == After(batch, Batch(views, cs, maxNum - count, askForRefills))
    ensures CursorsFit(views, cs[i := cs[i] + 1])
    ensures Batch(views, cursors, maxNum, askForRefills) ==
      After(batch + [views[i][cs[i]]], Batch(views, cs[i := cs[i] + 1], maxNum - (count + 1), askForRefills))
  {
    BatchStep(views, cs, maxNum - count, askForRefills);
    var c' := cs[i := cs[i] + 1];
    AfterAppend(batch, views[i][cs[i]], Batch(views, c', maxNum - count - 1, askForRefills));
  }

  /**
   * The loop of GetBatch: pops heap tops into ret[at..at + count] and
   * returns the advanced cursors, the count and the depleted input or -1,
   * exactly as Batch describes.
   */
  method MergeLoop(views: seq<seq<Record>>, cursors: seq<nat>, askForRefills: bool, ret: array<Record>, at: nat, maxNum: nat)
    returns (cs: seq<nat>, count: nat, depleted: int, ghost batch: seq<Record>)
    requires CursorsFit(views, cursors)
    requires at + maxNum <= ret.Length
    modifies ret
    ensures Batch(views, cursors, maxNum, askForRefills) == BatchResult(cs, batch, depleted)
    ensures count == |batch| <= maxNum
    ensures forall k :: 0 <= k < count ==> ret[at + k] == batch[k]
    ensures forall k :: 0 <= k < ret.Length && !(at <= k < at + count) ==> ret[k] == old(ret[k])
  {
    cs, count, depleted, batch := cursors, 0, -1, [];
    while count < maxNum
      invariant CursorsFit(views, cs)
      invariant count <= maxNum && |batch| == count
      invariant forall k :: 0 <= k < count ==> ret[at + k] == batch[k]
      invariant forall k :: 0 <= k < ret.Length && !(at <= k < at + count) ==> ret[k] == old(ret[k])
      invariant Batch(views, cursors, maxNum, askForRefills) == After(batch, Batch(views, cs, maxNum - count, askForRefills))
    {
      var i := MinHead(views, cs);
      if i == -1 {
        break;
      }
      var r := views[i][cs[i]];
      Put(ret, at, count, batch, r);
      if askForRefills && cs[i] + 1 == |views[i]| {
        PopEndsBatch(views, cursors, cs, maxNum, count, batch, askForRefills, i);
        cs, batch, count, depleted := cs[i := cs[i] + 1], batch + [r], count + 1, i;
        return;
      }
      PopExtendsBatch(views, cursors, cs, maxNum, count, batch, askForRefills, i);
      cs, batch, count := cs[i := cs[i] + 1], batch + [r], count + 1;
    }
    BatchStop(views, cs, maxNum - count, askForRefills);
    assert batch + [] == batch;
  }

  /** MergeLoop, with what it writes stated as slices of ret. */
  method MergeInto(views: seq<seq<Record>>, cursors: seq<nat>, askForRefills: bool, ret: array<Record>, at: nat, maxNum: nat)
    returns (cs: seq<nat>, count: nat, depleted: int, ghost batch: seq<Record>)
    requires CursorsFit(views, cursors)
    requires at + maxNum <= ret.Length
    modifies ret
    ensures Batch(views, cursors, maxNum, askForRefills) == BatchResult(cs, batch, depleted)
    ensures count == |batch| <= maxNum
    ensures ret[at..at + count] == batch
    ensures ret[..at] == old(ret[..at]) && ret[at + count..] == old(ret[at + count..])
  {
    cs, count, depleted, batch := MergeLoop(views, cursors, askForRefills, ret, at, maxNum);
    Spliced(old(ret[..]), ret[..], at, batch);
  }

  /** The merger's protocol state between two calls. */
  datatype MergerState = Active | AwaitingRefill(part: nat) | Exhausted

  /**
   * Merger: merges M sorted partitions and produces the output in blocks.
   * Input i is "in the heap" exactly when its cursor has not reached the
   * end of its current view; the heap top is the least such head.
   */
  class Merger {
    /** The current view (chunk) of each input. */
    var views: seq<seq<Record>>
    /** Per-input cursor: views[i][..cursors[i]] has been emitted. */
    var cursors: seq<nat>
    /** The input whose depletion the last GetBatch reported, or -1. */
    var awaiting: int
    const askForRefills: bool
    /** Accepted and kept; the merge does not depend on it. */
    const boundaries: seq<Key>

    /** Everything supplied for input i so far: its first view and all refills, in order. */
    ghost var streams: seq<seq<Record>>
    /** Everything emitted so far, over all GetBatch calls, in order. */
    ghost var output: seq<Record>

    ghost predicate Valid()
      reads this
    {
      MergeInvariant(views, cursors, streams, output, awaiting, askForRefills)
    }

    ghost function State(): MergerState
      reads this
    {
      if awaiting >= 0 then AwaitingRefill(awaiting)
      else if Drained(views, cursors) then Exhausted
      else Active
    }

    constructor (partitions: seq<seq<Record>>, askForRefills: bool, boundaries: seq<Key>)
      requires forall i :: 0 <= i < |partitions| ==> Sorted(partitions[i])
      ensures Valid() && Pending(views, cursors) == partitions
      ensures views == partitions && streams == partitions && output == []
      ensures cursors == seq(|partitions|, _ => 0)
      ensures awaiting == -1
      ensures this.askForRefills == askForRefills && this.boundaries == boundaries
    {
      views := partitions;
      cursors := seq(|partitions|, _ => 0);
      awaiting := -1;
      this.askForRefills := askForRefills;
      this.boundaries := boundaries;
      streams := partitions;
      output := [];
      StartKeepsInvariant(partitions, askForRefills);
    }

    /** Installs a new merge state that satisfies the invariant. */
    method Commit(cs: seq<nat>, ghost out: seq<Record>, depleted: int)
      requires MergeInvariant(views, cs, streams, out, depleted, askForRefills)
      modifies this
      ensures Valid()
      ensures views == old(views) && streams == old(streams)
      ensures cursors == cs && output == out && awaiting == depleted
    {
      cursors, output, awaiting := cs, out, depleted;
    }

    /**
     * GetBatch: writes up to maxNum records, in merged order, to
     * ret[at..at + count]. With refills asked for, it stops right after
     * emitting the last record of an input's view and returns that input's
     * id; otherwise it returns -1 and stops only when the batch is full or
     * every input is used up.
     */
    method GetBatch(ret: array<Record>, at: nat, maxNum: nat) returns (count: nat, depleted: int)
      requires Valid()
      requires 0 < maxNum && at + maxNum <= ret.Length
      modifies this, ret
      ensures Valid()
      ensures views == old(views) && streams == old(streams)
      ensures count <= maxNum
      ensures ret[..at] == old(ret[..at]) && ret[at + count..] == old(ret[at + count..])
      ensures output == old(output) + ret[at..at + count]
      ensures Bag(old(Pending(views, cursors))) == multiset(ret[at..at + count]) + Bag(Pending(views, cursors))
      ensures CursorsAdvanced(old(cursors), cursors)
      ensures depleted == awaiting
      ensures depleted != -1 ==>
        askForRefills && 0 <= depleted < |views| && cursors[depleted] == |views[depleted]| && count > 0
      ensures askForRefills ==> UsedUpReported(views, old(cursors), cursors, depleted)
      ensures depleted != -1 ==> old(cursors)[depleted] < |views[depleted]|
      ensures depleted == -1 && count < maxNum ==> State() == Exhausted
      ensures old(State()) == Exhausted ==> count == 0 && depleted == -1
      ensures |old(output)| < |Bag(streams)| ==> count > 0
    {
      assert MergeInvariant(views, cursors, streams, output, -1, askForRefills);
      BatchShape(views, cursors, maxNum, askForRefills);
      BatchKeepsInvariant(views, cursors, streams, output, maxNum, askForRefills, Batch(views, cursors, maxNum, askForRefills));
      PendingCount(views, cursors, streams, output);
      var cs;
      ghost var batch;
      cs, count, depleted, batch := MergeInto(views, cursors, askForRefills, ret, at, maxNum);
      ghost var after := Pending(views, cs);
      Commit(cs, output + batch, depleted);
      assert Pending(views, cursors) == after;
    }

    /**
     * Refill: supplies the next chunk of input id's stream after GetBatch
     * reported it depleted. The chunk must be sorted and continue the
     * stream (its first record no less than the stream's last one).
     */
    method Refill(part: seq<Record>, id: int)
      requires Valid()
      requires 0 <= id && State() == AwaitingRefill(id)
      requires Sorted(part)
      requires part != [] ==> !HeaderLess(part[0], streams[id][|streams[id]| - 1])
      modifies this
      ensures Valid()
      ensures views == old(views)[id := part]
      ensures cursors == old(cursors)[id := 0]
      ensures streams == old(streams)[id := old(streams[id]) + part]
      ensures output == old(output)
      ensures awaiting == -1
      ensures Pending(views, cursors) == old(Pending(views, cursors))[id := part]
      ensures part != [] ==> State() == Active
    {
      RefillKeepsInvariant(views, cursors, streams, output, askForRefills, id, part);
      views := views[id := part];
      cursors := cursors[id := 0];
      streams := streams[id := streams[id] + part];
      awaiting := -1;
      assert part != [] ==> HasHead(views, cursors, id);
    }
  }

  // ---------------------------------------------------------------------------
  // MergePartitions
  // ---------------------------------------------------------------------------

  /** The total number of records over all inputs. */
  method TotalLength(partitions: seq<seq<Record>>) returns (total: nat)
    ensures total == TotalSize(partitions)
  {
    total := 0;
    var k := 0;
    while k < |partitions|
      invariant 0 <= k <= |partitions|
      invariant total == TotalSize(partitions[..k])
    {
      assert partitions[..k + 1] == partitions[..k] + [partitions[k]];
      TotalSizeAppend(partitions[..k], partitions[k]);
      total := total + |partitions[k]|;
      k := k + 1;
    }
    assert partitions[..k] == partitions;
  }

  /** Once as many records were emitted as were supplied, every input is used up and the output holds them all. */
  lemma AllEmitted(views: seq<seq<Record>>, cursors: seq<nat>, streams: seq<seq<Record>>, output: seq<Record>)
    requires Accounted(views, cursors, streams, output) && |output| == |Bag(streams)|
    ensures multiset(output) == Bag(streams)
    ensures Drained(views, cursors)
  {
    var p := Pending(views, cursors);
    PendingCount(views, cursors, streams, output);
    BagSize(p);
    forall i | 0 <= i < |views|
      ensures |views[i]| <= cursors[i]
    {
      TotalSizeBounds(p, i);
    }
    assert Bag(p) == multiset{};
  }

  lemma {:induction false} TotalSizeBounds(ss: seq<seq<Record>>, i: nat)
    requires i < |ss|
    ensures |ss[i]| <= TotalSize(ss)
  {
    if i > 0 {
      TotalSizeBounds(ss[1..], i - 1);
    }
  }

  /** A prefix kept by a write, extended by what the write put after it, is the new prefix. */
  lemma PrefixExtended(before: seq<Record>, after: seq<Record>, filled: nat, count: nat)
    requires filled <= |before| && filled + count <= |after|
    requires after[..filled] == before[..filled]
    ensures before[..filled] + after[filled..filled + count] == after[..filled + count]
  {
    assert after[..filled + count] == after[..filled] + after[filled..filled + count];
  }

  /** One step of the MergePartitions loop: asks for a batch that fills out from filled on. */
  method FillFrom(merger: Merger, out: array<Record>, filled: nat) returns (next: nat)
    requires filled < out.Length == |Bag(merger.streams)|
    requires merger.Valid() && merger.output == out[..filled]
    modifies merger, out
    ensures merger.Valid()
    ensures merger.views == old(merger.views) && merger.streams == old(merger.streams)
    ensures filled < next <= out.Length && merger.output == out[..next]
  {
    ghost var prior := out[..];
    var count, depleted := merger.GetBatch(out, filled, out.Length - filled);
    PrefixExtended(prior, out[..], filled, count);
    next := filled + count;
  }

  /** The GetBatch loop of MergePartitions: asks for batches until out is full. */
  method Drain(merger: Merger, out: array<Record>)
    requires merger.Valid() && merger.output == []
    requires out.Length == |Bag(merger.streams)|
    modifies merger, out
    ensures merger.Valid()
    ensures merger.views == old(merger.views) && merger.streams == old(merger.streams)
    ensures merger.output == out[..]
  {
    var filled := 0;
    while filled < out.Length
      invariant 0 <= filled <= out.Length
      invariant merger.Valid()
      invariant merger.views == old(merger.views) && merger.streams == old(merger.streams)
      invariant merger.output == out[..filled]
      decreases out.Length - filled
    {
      filled := FillFrom(merger, out, filled);
    }
    assert out[..] == out[..filled];
  }

  /**
   * MergePartitions: allocates one buffer as long as all inputs together
   * and drives a Merger until every record is in it. The result is sorted
   * and a permutation of the inputs; a single input comes back unchanged.
   */
  method MergePartitions(partitions: seq<seq<Record>>, askForRefills: bool := false, boundaries: seq<Key> := [])
    returns (out: array<Record>)
    requires forall i :: 0 <= i < |partitions| ==> Sorted(partitions[i])
    ensures fresh(out)
    ensures out.Length == TotalSize(partitions)
    ensures Sorted(out[..])
    ensures multiset(out[..]) == Bag(partitions)
    ensures |partitions| == 1 ==> out[..] == partitions[0]
  {
    var total := TotalLength(partitions);
    BagSize(partitions);
    out := new Record[total];
    var merger := new Merger(partitions, askForRefills, boundaries);
    Drain(merger, out);
    AllEmitted(merger.views, merger.cursors, merger.streams, merger.output);
    if |partitions| == 1 {
      assert merger.output == partitions[0][..|partitions[0]|];
    }
  }
}
