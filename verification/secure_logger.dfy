/** PII redaction in the logger (src/utils/secureLogger.ts): log payloads
    are JSON-like values, and every object key whose lower-cased form is
    listed as personal data has its value replaced by a fixed marker. */
module SecureLogger {
  import opened Text

  /** A JSON-like value as seen by the logger. Numbers are only copied,
      so an integer stands for any number; objects keep their keys in
      insertion order. */
  datatype Json =
    | Undefined
    | Null
    | Bool(b: bool)
    | Num(n: int)
    | Str(s: string)
    | Arr(items: seq<Json>)
    | Obj(entries: seq<Entry>)

  datatype Entry = Entry(key: string, value: Json)

  /** `typeof value === 'object' && value !== null`: arrays and objects. */
  predicate IsObjectLike(x: Json) { x.Arr? || x.Obj? }

  /** `PII_FIELDS`, in the source's order and spelling. */
  const PiiFields: seq<string> := [
    "email", "phone", "phoneNumber", "dateOfBirth", "dob", "fiscalCode", "taxCode",
    "password", "passwordConfirm", "confirmPassword", "uid", "ssn", "socialSecurityNumber"]

  const RedactedMarker: string := "***REDACTED***"

  /** A key is redacted when its lower-cased form is in the list. */
  predicate IsPiiKey(key: string) { ToLower(key) in PiiFields }

  /** The value written for one object entry: the marker for a PII key
      (even when the value is itself an object), a recursive redaction for
      a nested array or object, the value itself otherwise. */
  function RedactEntry(e: Entry): (r: Entry)
    ensures r.key == e.key
    ensures IsPiiKey(e.key) ==> r.value == Str(RedactedMarker)
    ensures !IsPiiKey(e.key) && !IsObjectLike(e.value) ==> r.value == e.value
    decreases e, 0
  {
    if IsPiiKey(e.key) then Entry(e.key, Str(RedactedMarker))
    else if IsObjectLike(e.value) then Entry(e.key, Redact(e.value))
    else e
  }

  /** `redactPII`: a fresh copy of `x` with PII entries masked at every depth.
      null, undefined and non-object values come back unchanged; arrays map
      element-wise; objects keep exactly their keys, in order. */
  function Redact(x: Json): (r: Json)
    ensures !IsObjectLike(x) ==> r == x
    ensures x.Arr? ==> r.Arr? && |r.items| == |x.items|
    ensures x.Obj? ==> (r.Obj? && |r.entries| == |x.entries|
      && forall k :: 0 <= k < |x.entries| ==> r.entries[k].key == x.entries[k].key)
    decreases x, 1
  {
    match x
    case Arr(items) => Arr(seq(|items|, k requires 0 <= k < |items| => Redact(items[k])))
    case Obj(entries) => Obj(seq(|entries|, k requires 0 <= k < |entries| => RedactEntry(entries[k])))
    case _ => x
  }

  /** Nothing left to mask: every PII key at every depth maps to the marker. */
  predicate Clean(x: Json)
    decreases x
  {
    match x
    case Arr(items) => forall k :: 0 <= k < |items| ==> Clean(items[k])
    case Obj(entries) =>
      forall k :: 0 <= k < |entries| ==>
        if IsPiiKey(entries[k].key) then entries[k].value == Str(RedactedMarker)
        else Clean(entries[k].value)
    case _ => true
  }

  /** `y` has the shape and keys of `x` and agrees with it everywhere
      except under PII keys. */
  predicate AgreeOutsidePii(x: Json, y: Json)
    decreases x
  {
    match x
    case Arr(items) =>
      y.Arr? && |y.items| == |items|
      && forall k :: 0 <= k < |items| ==> AgreeOutsidePii(items[k], y.items[k])
    case Obj(entries) =>
      y.Obj? && |y.entries| == |entries|
      && forall k :: 0 <= k < |entries| ==>
        && y.entries[k].key == entries[k].key
        && (!IsPiiKey(entries[k].key) ==> AgreeOutsidePii(entries[k].value, y.entries[k].value))
    case _ => y == x
  }

  /** The redacted copy is clean. */
  lemma {:induction false} RedactIsClean(x: Json)
    ensures Clean(Redact(x))
    decreases x
  {
    match x
    case Arr(items) =>
      forall k | 0 <= k < |items| ensures Clean(Redact(x).items[k]) {
        RedactIsClean(items[k]);
      }
    case Obj(entries) =>
      var r := Redact(x);
      forall k | 0 <= k < |entries|
        ensures if IsPiiKey(r.entries[k].key) then r.entries[k].value == Str(RedactedMarker)
                else Clean(r.entries[k].value)
      {
        assert r.entries[k] == RedactEntry(entries[k]);
        if !IsPiiKey(entries[k].key) && IsObjectLike(entries[k].value) {
          RedactIsClean(entries[k].value);
        }
      }
    case _ =>
  }

  /** The redacted copy agrees with the input outside PII keys. */
  lemma {:induction false} RedactAgrees(x: Json)
    ensures AgreeOutsidePii(x, Redact(x))
    decreases x
  {
    match x
    case Arr(items) =>
      forall k | 0 <= k < |items| ensures AgreeOutsidePii(items[k], Redact(x).items[k]) {
        RedactAgrees(items[k]);
      }
    case Obj(entries) =>
      var r := Redact(x);
      forall k | 0 <= k < |entries| && !IsPiiKey(entries[k].key)
        ensures AgreeOutsidePii(entries[k].value, r.entries[k].value)
      {
        assert r.entries[k] == RedactEntry(entries[k]);
        if IsObjectLike(entries[k].value) {
          RedactAgrees(entries[k].value);
        } else {
          AgreeReflexive(entries[k].value);
        }
      }
    case _ =>
  }

  lemma {:induction false} AgreeReflexive(x: Json)
    ensures AgreeOutsidePii(x, x)
    decreases x
  {
    match x
    case Arr(items) =>
      forall k | 0 <= k < |items| ensures AgreeOutsidePii(items[k], items[k]) {
        AgreeReflexive(items[k]);
      }
    case Obj(entries) =>
      forall k | 0 <= k < |entries| ensures AgreeOutsidePii(entries[k].value, entries[k].value) {
        AgreeReflexive(entries[k].value);
      }
    case _ =>
  }

  /** Redaction is characterised by those two facts: any clean value that
      agrees with `x` outside PII keys is `Redact(x)`. */
  lemma {:induction false} RedactUnique(x: Json, y: Json)
    requires Clean(y) && AgreeOutsidePii(x, y)
    ensures y == Redact(x)
    decreases x
  {
    match x
    case Arr(items) =>
      var r := Redact(x);
      forall k | 0 <= k < |items| ensures y.items[k] == r.items[k] {
        RedactUnique(items[k], y.items[k]);
      }
      assert y.items == r.items;
    case Obj(entries) =>
      var r := Redact(x);
      forall k | 0 <= k < |entries| ensures y.entries[k] == r.entries[k] {
        assert r.entries[k] == RedactEntry(entries[k]);
        if !IsPiiKey(entries[k].key) {
          RedactUnique(entries[k].value, y.entries[k].value);
        }
      }
      assert y.entries == r.entries;
    case _ =>
  }

  /** Redacting twice is redacting once. */
  lemma RedactIdempotent(x: Json)
    ensures Redact(Redact(x)) == Redact(x)
  {
    var r := Redact(x);
    RedactIsClean(x);
    AgreeReflexive(r);
    RedactUnique(r, r);
  }

  /** A value with nothing to mask is copied unchanged. */
  lemma CleanUnchanged(x: Json)
    requires Clean(x)
    ensures Redact(x) == x
  {
    AgreeReflexive(x);
    RedactUnique(x, x);
  }

  /** Only six of the thirteen listed names can ever match: the key is
      lower-cased but seven entries contain capitals. */
  lemma EffectivePiiKeys(key: string)
    ensures IsPiiKey(key) <==> ToLower(key) in ["email", "phone", "dob", "password", "uid", "ssn"]
  {
    var lower := ToLower(key);
    assert IsUpperAscii("phoneNumber"[5]);
    assert IsUpperAscii("dateOfBirth"[4]);
    assert IsUpperAscii("fiscalCode"[6]);
    assert IsUpperAscii("taxCode"[3]);
    assert IsUpperAscii("passwordConfirm"[8]);
    assert IsUpperAscii("confirmPassword"[7]);
    assert IsUpperAscii("socialSecurityNumber"[6]);
  }

  /** Consequences: 'dateOfBirth' and 'phoneNumber' keys are not masked,
      while 'EMAIL' and 'Uid' are. */
  lemma KeyCaseExamples()
    ensures !IsPiiKey("dateOfBirth") && !IsPiiKey("phoneNumber")
    ensures IsPiiKey("EMAIL") && IsPiiKey("Uid")
  {
    EffectivePiiKeys("dateOfBirth");
    EffectivePiiKeys("phoneNumber");
    assert ToLower("dateOfBirth") == "dateofbirth";
    assert ToLower("phoneNumber") == "phonenumber";
    assert ToLower("EMAIL") == "email";
    assert ToLower("Uid") == "uid";
  }

  datatype LogLevel = Debug | Info | Warn | Error

  /** A formatted log entry without its timestamp. */
  datatype LogEntry = LogEntry(level: LogLevel, message: string, data: Option<Json>)

  /** `formatLog`: the `data` field is present exactly when data is not
      undefined, and then holds the redacted copy. */
  function FormatLog(level: LogLevel, message: string, data: Json): (r: LogEntry)
    ensures r.level == level && r.message == message
    ensures r.data.Some? <==> data != Undefined
    ensures r.data.Some? ==> Clean(r.data.value) && AgreeOutsidePii(data, r.data.value)
  {
    RedactIsClean(data);
    RedactAgrees(data);
    LogEntry(level, message, if data == Undefined then None else Some(Redact(data)))
  }
}
