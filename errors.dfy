/** The registry's error values (common/errors.go) and the text of a
    validation error. */
module Errors {
  import opened Wrappers

  /** The sentinel errors of the common package, the other sentinels the
      core refers to, errors built ad hoc with fmt.Errorf (Message) and
      validation errors. */
  datatype Error =
    | NotSignedIn
    | InvalidLogin
    | AccountDeactivated
    | PermissionDenied
    | NotSupported
    | DecodeCookie
    | InvalidParam
    | WrongDataType
    | ParentRecordNotFound
    | ResourcePermission
    | InvalidRequeue
    | PendingWorkItems
    | InvalidToken
    | PasswordReqs
    | Internal
    // Declared in the common package outside errors.go.
    | IDMismatch
    | InstIDChange
    | IdentifierChange
    | StorageOptionChange
    | ActiveFiles
    // http.ErrNoCookie and pg.ErrNoRows.
    | NoCookie
    | NoRows
    | Validation(v: ValidationError)
    | Message(text: string)

  /** The line Error() writes for one entry of the map. */
  function Line(field: string, msg: string): string {
    field + ": " + msg
  }

  /** strings.Join */
  function Join(parts: seq<string>, sep: string): string {
    if |parts| == 0 then ""
    else if |parts| == 1 then parts[0]
    else parts[0] + sep + Join(parts[1..], sep)
  }

  /** The lines for the fields of `order`, in that order. */
  function LinesOf(order: seq<string>, m: map<string, string>): (lines: seq<string>)
    requires forall i :: 0 <= i < |order| ==> order[i] in m
    ensures |lines| == |order|
    ensures forall i :: 0 <= i < |order| ==> lines[i] == Line(order[i], m[order[i]])
  {
    if order == [] then [] else [Line(order[0], m[order[0]])] + LinesOf(order[1..], m)
  }

  /** `order` lists every key of `keys` exactly once: one possible order
      of Go's map iteration. */
  ghost predicate IsEnumeration(order: seq<string>, keys: set<string>) {
    && (forall i, j :: 0 <= i < j < |order| ==> order[i] != order[j])
    && (forall i :: 0 <= i < |order| ==> order[i] in keys)
    && (forall k :: k in keys ==> k in order)
  }

  /** A validation error: a map from field name to message, which may be nil. */
  datatype ValidationError = ValidationError(errors: Option<map<string, string>>)

  /** ValidationError.Error(): one "field: msg" line per entry, in
      map-iteration order, joined by newlines. The iteration order is the
      ghost `order`. */
  method ValidationErrorText(v: ValidationError) returns (s: string, ghost order: seq<string>)
    ensures v.errors.None? ==> s == ""
    ensures v.errors.Some? ==> IsEnumeration(order, v.errors.value.Keys)
    ensures v.errors.Some? ==> s == Join(LinesOf(order, v.errors.value), "\n")
  {
    order := [];
    if v.errors.None? {
      return "", order;
    }
    var m := v.errors.value;
    var errs: seq<string> := seq(|m|, _ => "");
    var i := 0;
    var remaining := m.Keys;
    while remaining != {}
      invariant i == |order| && i + |remaining| == |m| == |errs|
      invariant forall j :: 0 <= j < |order| ==> order[j] in m && order[j] !in remaining
      invariant forall j, l :: 0 <= j < l < |order| ==> order[j] != order[l]
      invariant remaining <= m.Keys
      invariant forall k :: k in m.Keys ==> k in remaining || k in order
      invariant forall j :: 0 <= j < i ==> errs[j] == Line(order[j], m[order[j]])
      decreases |remaining|
    {
      var field :| field in remaining;
      errs := errs[i := Line(field, m[field])];
      i := i + 1;
      order := order + [field];
      remaining := remaining - {field};
    }
    assert errs == LinesOf(order, m);
    s := Join(errs, "\n");
  }

  /** One validation step: record `msg` under `key` when the check failed,
      replacing any earlier message for that key. */
  function Flag(m: map<string, string>, failed: bool, key: string, msg: string): map<string, string> {
    if failed then m[key := msg] else m
  }

  /** NewValidationError: a non-nil map with no entries. */
  function NewValidationError(): (v: ValidationError)
    ensures v.errors.Some? && |v.errors.value| == 0
  {
    ValidationError(Some(map[]))
  }

  /** One check of a Validate method: the key it reports under, whether
      it failed and the message it reports. */
  datatype Check = Check(key: string, failed: bool, msg: string)

  /** The errors map a Validate method builds by running the checks `cs`
      in order on an empty map. */
  function Run(cs: seq<Check>): map<string, string> {
    if cs == [] then map[]
    else
      var n := |cs| - 1;
      Flag(Run(cs[..n]), cs[n].failed, cs[n].key, cs[n].msg)
  }

  predicate DistinctKeys(cs: seq<Check>) {
    forall i, j :: 0 <= i < j < |cs| ==> cs[i].key != cs[j].key
  }

  /** `m` has an entry for each failed check of `cs`, with its message,
      and nothing else. */
  predicate Reports(m: map<string, string>, cs: seq<Check>) {
    && (forall k :: k in m ==> exists i :: 0 <= i < |cs| && cs[i].key == k)
    && (forall i :: 0 <= i < |cs| ==> (cs[i].key in m <==> cs[i].failed))
    && (forall i :: 0 <= i < |cs| && cs[i].key in m ==> m[cs[i].key] == cs[i].msg)
  }

  /** Checks under distinct keys report exactly their failures. */
  lemma {:induction false} RunReports(cs: seq<Check>)
    requires DistinctKeys(cs)
    ensures Reports(Run(cs), cs)
  {
    if cs != [] {
      var n := |cs| - 1;
      var done := cs[..n];
      assert DistinctKeys(done) by {
        forall i, j | 0 <= i < j < |done| ensures done[i].key != done[j].key {
          assert done[i] == cs[i] && done[j] == cs[j];
        }
      }
      RunReports(done);
      forall i | 0 <= i < |done| ensures done[i].key != cs[n].key {
        assert done[i] == cs[i];
      }
      assert cs == done + [cs[n]];
      ReportsStep(Run(done), done, cs[n]);
    }
  }

  /** Running one more check under a new key extends a report. */
  lemma ReportsStep(m: map<string, string>, done: seq<Check>, c: Check)
    requires Reports(m, done)
    requires forall i :: 0 <= i < |done| ==> done[i].key != c.key
    ensures Reports(Flag(m, c.failed, c.key, c.msg), done + [c])
  {
    var cs := done + [c];
    var m' := Flag(m, c.failed, c.key, c.msg);
    forall k | k in m' ensures exists i :: 0 <= i < |cs| && cs[i].key == k {
      if k == c.key {
        assert cs[|done|].key == k;
      } else {
        var i :| 0 <= i < |done| && done[i].key == k;
        assert cs[i].key == k;
      }
    }
    forall i | 0 <= i < |cs| ensures (cs[i].key in m' <==> cs[i].failed) {
      if i < |done| {
        assert cs[i] == done[i];
      }
    }
    forall i | 0 <= i < |cs| && cs[i].key in m' ensures m'[cs[i].key] == cs[i].msg {
      if i < |done| {
        assert cs[i] == done[i];
      }
    }
  }

  /** The map of a report is empty exactly when every check passed. */
  lemma ReportEmptyIffAllPass(m: map<string, string>, cs: seq<Check>)
    requires Reports(m, cs)
    ensures m == map[] <==> forall i :: 0 <= i < |cs| ==> !cs[i].failed
  {
    if forall i :: 0 <= i < |cs| ==> !cs[i].failed {
      assert m.Keys == {};
    }
  }

  /** Number of occurrences of `c` in `s`. */
  function Count(s: string, c: char): nat {
    if s == [] then 0 else (if s[0] == c then 1 else 0) + Count(s[1..], c)
  }

  lemma {:induction false} CountAppend(a: string, b: string, c: char)
    ensures Count(a + b, c) == Count(a, c) + Count(b, c)
  {
    if a != [] {
      assert (a + b)[1..] == a[1..] + b;
      CountAppend(a[1..], b, c);
    } else {
      assert a + b == b;
    }
  }

  /** Joining lines that hold no newline gives exactly one newline between
      consecutive lines and none at the end. */
  lemma {:induction false} JoinNewlines(parts: seq<string>)
    requires |parts| > 0
    requires forall i :: 0 <= i < |parts| ==> Count(parts[i], '\n') == 0
    ensures Count(Join(parts, "\n"), '\n') == |parts| - 1
  {
    if |parts| > 1 {
      JoinNewlines(parts[1..]);
      CountAppend(parts[0], "\n", '\n');
      CountAppend(parts[0] + "\n", Join(parts[1..], "\n"), '\n');
    }
  }

  /** Every entry of the map has its line in Error()'s output lines, and
      there are as many lines as entries. */
  lemma EveryEntryHasALine(order: seq<string>, m: map<string, string>)
    requires IsEnumeration(order, m.Keys)
    ensures |LinesOf(order, m)| == |m|
    ensures forall k :: k in m ==> Line(k, m[k]) in LinesOf(order, m)
  {
    DistinctCovering(order, m.Keys);
    forall k | k in m ensures Line(k, m[k]) in LinesOf(order, m) {
      var i :| 0 <= i < |order| && order[i] == k;
      assert LinesOf(order, m)[i] == Line(k, m[k]);
    }
  }

  /** A duplicate-free sequence that covers a set exactly has its size. */
  lemma {:induction false} DistinctCovering(order: seq<string>, keys: set<string>)
    requires IsEnumeration(order, keys)
    ensures |order| == |keys|
  {
    if order != [] {
      var rest := keys - {order[0]};
      assert IsEnumeration(order[1..], rest) by {
        forall k | k in rest ensures k in order[1..] {
          var i :| 0 <= i < |order| && order[i] == k;
          assert i != 0;
          assert order[1..][i - 1] == k;
        }
      }
      DistinctCovering(order[1..], rest);
    }
  }

  /** A validation error with no entries reads as the empty string, nil or not. */
  lemma EmptyErrorText(v: ValidationError)
    requires v.errors.Some? && |v.errors.value| == 0
    ensures forall order :: IsEnumeration(order, v.errors.value.Keys) ==>
              Join(LinesOf(order, v.errors.value), "\n") == ""
  {
    forall order | IsEnumeration(order, v.errors.value.Keys)
      ensures Join(LinesOf(order, v.errors.value), "\n") == ""
    {
      DistinctCovering(order, v.errors.value.Keys);
    }
  }
}
