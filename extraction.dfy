/** The structured-extraction step: the generative service's parsed JSON reply is turned
    into FAQ, normalised schedule and summary; in demo mode a fixed structure is returned. */
module Extraction {
  import opened Wrappers
  import opened Text
  import opened Schedule

  /** A JSON value from the reply, seen through what Python's `int(v)`, `float(v)` and `str(v)`
      make of it: `asInt`/`asFloat` are None where that conversion raises. */
  datatype Value = Value(asInt: Option<int>, asFloat: Option<real>, asText: string)

  /** One element of the reply's `schedule` array: a JSON object, or anything else
      (on which `item.get` raises). */
  datatype RawItem = NotObject | Object(fields: map<string, Value>)

  /** The top-level reply object's fields, None where the key is absent. */
  datatype Reply = Reply(faq: Option<map<string, string>>, schedule: Option<seq<RawItem>>, summary: Option<string>)

  /** What the extraction step hands back to the upload route. */
  datatype Structured = Structured(faq: map<string, string>, schedule: seq<Entry>, summary: string)

  /** Coerces one raw item to an entry, or None where the source's `try` block would raise:
      `week` must be present and integral; `assignments` defaults to 0, `weight_pct` to 0.0 and
      `notes` to "" when absent, and must convert when present; notes are stripped. */
  function Coerce(item: RawItem): (r: Option<Entry>)
    ensures r.Some? <==>
              && item.Object? && "week" in item.fields && item.fields["week"].asInt.Some?
              && ("assignments" in item.fields ==> item.fields["assignments"].asInt.Some?)
              && ("weight_pct" in item.fields ==> item.fields["weight_pct"].asFloat.Some?)
    ensures r.Some? ==> item.Object? && "week" in item.fields && item.fields["week"].asInt == Some(r.value.week)
    ensures r.Some? && "assignments" in item.fields ==> item.fields["assignments"].asInt == Some(r.value.assignments)
    ensures r.Some? && "weight_pct" in item.fields ==> item.fields["weight_pct"].asFloat == Some(r.value.weightPct)
    ensures r.Some? && "notes" in item.fields ==> r.value.notes == Strip(item.fields["notes"].asText)
    ensures r.Some? && "assignments" !in item.fields ==> r.value.assignments == 0
    ensures r.Some? && "weight_pct" !in item.fields ==> r.value.weightPct == 0.0
    ensures r.Some? && "notes" !in item.fields ==> r.value.notes == ""
    ensures r.Some? && r.value.notes != [] ==> !IsSpace(r.value.notes[0]) && !IsSpace(r.value.notes[|r.value.notes| - 1])
    ensures item.Object? && "week" in item.fields && item.fields["week"].asInt.Some?
            && "assignments" !in item.fields && "weight_pct" !in item.fields && "notes" !in item.fields
            ==> r == Some(Entry(item.fields["week"].asInt.value, 0, 0.0, ""))
  {
    match item
    case NotObject => None
    case Object(m) =>
      // a missing week reaches `int(None)`, which raises
      var week := if "week" in m then m["week"].asInt else None;
      var assignments := if "assignments" in m then m["assignments"].asInt else Some(0);
      var weight := if "weight_pct" in m then m["weight_pct"].asFloat else Some(0.0);
      var notes := Strip(if "notes" in m then m["notes"].asText else "");
      if week.Some? && assignments.Some? && weight.Some? then
        Some(Entry(week.value, assignments.value, weight.value, notes))
      else None
  }

  /** The `Some` results of `f` over `xs`, in order: the items on which `f` fails are dropped. */
  function KeepSome<A, B>(f: A -> Option<B>, xs: seq<A>): (r: seq<B>)
    ensures |r| <= |xs|
  {
    if xs == [] then []
    else KeepSome(f, xs[..|xs| - 1]) + (match f(xs[|xs| - 1]) case Some(y) => [y] case None => [])
  }

  lemma {:induction false} KeepSomeMembers<A, B>(f: A -> Option<B>, xs: seq<A>, y: B)
    ensures y in KeepSome(f, xs) <==> exists i :: 0 <= i < |xs| && f(xs[i]) == Some(y)
  {
    if xs != [] {
      var n := |xs| - 1;
      var init := xs[..n];
      KeepSomeMembers(f, init, y);
      if y in KeepSome(f, xs) && y !in KeepSome(f, init) {
        assert f(xs[n]) == Some(y);
      }
      if y in KeepSome(f, init) {
        var i :| 0 <= i < |init| && f(init[i]) == Some(y);
        assert xs[i] == init[i];
      }
      if exists i :: 0 <= i < |xs| && f(xs[i]) == Some(y) {
        var i :| 0 <= i < |xs| && f(xs[i]) == Some(y);
        if i < n {
          assert init[i] == xs[i];
        }
      }
    }
  }

  /** The entries of the items whose coercion succeeds, in input order. */
  function Coerced(items: seq<RawItem>): seq<Entry> {
    KeepSome(Coerce, items)
  }

  /** KeepSome on one item: its value when `f` succeeds, nothing otherwise. */
  lemma KeepSomeSingle<A, B>(f: A -> Option<B>, x: A)
    ensures KeepSome(f, [x]) == if f(x).Some? then [f(x).value] else []
  {
    assert [x][..0] == [];
  }

  /** KeepSome distributes over concatenation. With KeepSomeSingle this pins KeepSome as the
      order-preserving filter: every kept item's value appears once per item, in input order. */
  lemma {:induction false} KeepSomeAppend<A, B>(f: A -> Option<B>, xs: seq<A>, ys: seq<A>)
    ensures KeepSome(f, xs + ys) == KeepSome(f, xs) + KeepSome(f, ys)
  {
    if ys == [] {
      assert xs + ys == xs;
    } else {
      var n := |ys| - 1;
      var last := match f(ys[n]) case Some(y) => [y] case None => [];
      assert (xs + ys)[..|xs + ys| - 1] == xs + ys[..n];
      assert (xs + ys)[|xs + ys| - 1] == ys[n];
      KeepSomeAppend(f, xs, ys[..n]);
      assert KeepSome(f, xs + ys) == KeepSome(f, xs) + KeepSome(f, ys[..n]) + last;
    }
  }

  /** Normalisation keeps exactly the items whose coercion succeeds. */
  lemma CoercedMembers(items: seq<RawItem>, e: Entry)
    ensures e in Coerced(items) <==> exists i :: 0 <= i < |items| && Coerce(items[i]) == Some(e)
  {
    KeepSomeMembers(Coerce, items, e);
  }

  /** The loop of `extract_structured_with_gemini` that builds `norm`, followed by `norm.sort(key=week)`.
      The result holds exactly the coercible items, sorted by week, stably. */
  method Normalize(items: seq<RawItem>) returns (norm: seq<Entry>)
    ensures norm == SortByWeek(Coerced(items))
    ensures |norm| <= |items| && SortedByWeek(norm)
    ensures multiset(norm) == multiset(Coerced(items))
    ensures forall e :: e in norm <==> exists i :: 0 <= i < |items| && Coerce(items[i]) == Some(e)
  {
    norm := [];
    for i := 0 to |items|
      invariant norm == KeepSome(Coerce, items[..i])
    {
      assert items[..i + 1][..i] == items[..i];
      match Coerce(items[i]) {
        case Some(e) => norm := norm + [e];
        case None =>
      }
    }
    assert items[..|items|] == items;
    var kept := norm;
    norm := SortByWeek(norm);
    forall e ensures e in norm <==> exists i :: 0 <= i < |items| && Coerce(items[i]) == Some(e) {
      assert e in norm <==> e in multiset(kept);
      CoercedMembers(items, e);
    }
  }

  /** Normalisation keeps every week's entries in their input order. */
  lemma NormalizeStable(items: seq<RawItem>, w: int)
    ensures WithWeek(SortByWeek(Coerced(items)), w) == WithWeek(Coerced(items), w)
  {
    SortByWeekStable(Coerced(items), w);
  }

  /** `extract_structured_with_gemini` after the service call. In demo mode the fixed structure
      (not normalised) is returned. Otherwise a failed call or unparseable reply propagates its
      message, and a parsed reply yields its FAQ (default empty), its normalised schedule
      (default empty) and its summary (default ""). */
  method ExtractStructured(mock: bool, reply: Result<Reply, string>) returns (r: Result<Structured, string>)
    ensures mock ==> r == Success(Demo())
    ensures !mock && reply.Failure? ==> r == Failure(reply.error)
    ensures !mock && reply.Success? ==>
      r.Success?
      && r.value.faq == reply.value.faq.GetOr(map[])
      && r.value.summary == reply.value.summary.GetOr("")
      && r.value.schedule == SortByWeek(Coerced(reply.value.schedule.GetOr([])))
  {
    if mock {
      return Success(Demo());
    }
    match reply {
      case Failure(e) =>
        r := Failure(e);
      case Success(data) =>
        var norm := Normalize(data.schedule.GetOr([]));
        r := Success(Structured(data.faq.GetOr(map[]), norm, data.summary.GetOr("")));
    }
  }

  /** The fixed structure demo mode returns. */
  function Demo(): (r: Structured)
    ensures r.faq.Keys == {"late_work_policy", "attendance_policy", "course_structure"}
    ensures |r.schedule| == 13 && SortedByWeek(r.schedule)
    ensures forall k :: 0 <= k < 13 ==> r.schedule[k].week == k + 1
    ensures Total(r.schedule) == 95.0 && InBand(Total(r.schedule))
  {
    MockFaqKeys();
    MockScheduleWeeks();
    MockScheduleTotal();
    Structured(MockFaq, MockSchedule, MockSummary)
  }

  /** The demo FAQ. */
  const MockFaq: map<string, string> := map[
    "late_work_policy" := "10% per day late up to 3 days; no submissions after 72 hours.",
    "attendance_policy" := "Attendance required; >2 unexcused absences = final grade reduced by one letter.",
    "course_structure" := "Weekly lectures + labs; 6 HWs, 2 quizzes, 1 midterm, final project & presentation."
  ]

  /** The demo FAQ has exactly the three recognised keys. */
  lemma MockFaqKeys()
    ensures MockFaq.Keys == {"late_work_policy", "attendance_policy", "course_structure"}
  {
  }

  /** The demo schedule, in the demo's own order. */
  const MockSchedule: seq<Entry> := [
    Entry(1, 1, 0.0, "HW0 (setup)"),
    Entry(2, 1, 5.0, "HW1"),
    Entry(3, 1, 5.0, "HW2"),
    Entry(4, 1, 5.0, "Quiz 1"),
    Entry(5, 1, 5.0, "Project proposal"),
    Entry(6, 1, 5.0, "HW3"),
    Entry(7, 1, 20.0, "Midterm"),
    Entry(8, 1, 5.0, "HW4"),
    Entry(9, 1, 5.0, "HW5"),
    Entry(10, 1, 10.0, "Project milestone"),
    Entry(11, 1, 5.0, "HW6"),
    Entry(12, 1, 5.0, "Quiz 2"),
    Entry(13, 1, 20.0, "Final project")
  ]

  const MockSummary: string :=
    "Course mixes weekly HWs, two quizzes, a midterm, and a final project; strict late policy; attendance required."

  /** The demo schedule has thirteen weeks, one entry each, already in order. */
  lemma MockScheduleWeeks()
    ensures |MockSchedule| == 13 && SortedByWeek(MockSchedule)
    ensures forall k :: 0 <= k < 13 ==> MockSchedule[k].week == k + 1
  {
  }

  /** The demo schedule's weights sum to 95, inside the 90 to 110 band. */
  lemma MockScheduleTotal()
    ensures Total(MockSchedule) == 95.0 && InBand(Total(MockSchedule))
  {
    var ms := MockSchedule;
    var partial := [0.0, 5.0, 10.0, 15.0, 20.0, 25.0, 45.0, 50.0, 55.0, 65.0, 70.0, 75.0, 95.0];
    assert Total(ms[..0]) == 0.0;
    for k := 0 to 13
      invariant Total(ms[..k]) == if k == 0 then 0.0 else partial[k - 1]
    {
      assert ms[..k + 1][..k] == ms[..k];
    }
    assert ms[..13] == ms;
  }
}
