/** Optional values: a JSON `null` or a missing key. */
module Optional {
  datatype Option<+T> = None | Some(value: T)

  /** Appending to a sequence in two steps is appending the two parts at once. */
  lemma AppendAssociates<T>(a: seq<T>, b: seq<T>, c: seq<T>)
    ensures a + b + c == a + (b + c)
  {
  }
}

/**
 * One decoded line of a gzipped, newline-delimited vehicle export.
 *
 * Only the shape the loaders look at is kept: the registration (the natural
 * key), the fields `clean_datetime` is applied to, the engine size (which one
 * loader coerces), and the nested tests and defects. The remaining pass-through
 * attributes (colours, make, model, fuel type, ...) are folded into `details`.
 */
module Records {
  import opened Optional

  /** A JSON scalar as it can appear in `engineSize`. */
  datatype Scalar = Null | Int(n: int) | Str(s: string)

  /** One element of a test's `defects` array. */
  datatype Defect = Defect(dangerous: Option<bool>, text: Option<string>, kind: Option<string>)

  /** An element of `defects`: an object, or anything else (a number, a list, ...). */
  datatype DefectItem = DefectObject(defect: Defect) | DefectOther

  /** One element of a vehicle's `motTests` array. */
  datatype MotTest = MotTest(
    completedDate: Option<string>,
    expiryDate: Option<string>,
    details: string,
    defects: seq<DefectItem>)

  /**
   * An element of `motTests`: an object, or anything else. A `motTests` value
   * that is not a list behaves like an empty list when iterating it yields
   * nothing (`""`, `{}`), and otherwise like a list whose first element is not
   * an object: iterating it raises before any test is recorded.
   */
  datatype TestItem = TestObject(test: MotTest) | TestOther

  datatype Vehicle = Vehicle(
    registration: Option<string>,
    engineSize: Scalar,
    firstUsedDate: Option<string>,
    registrationDate: Option<string>,
    manufactureDate: Option<string>,
    lastMotTestDate: Option<string>,
    lastUpdateDate: Option<string>,
    details: string,
    motTests: seq<TestItem>)

  /** What `json.loads` makes of one line. */
  datatype Line =
    | Undecodable          // json.JSONDecodeError
    | NonObject            // valid JSON that is not an object: `.get` raises AttributeError
    | Object(vehicle: Vehicle)

  /**
   * The content of one gzip file as the loaders see it: the lines read, and
   * whether reading raised after them (an unreadable file is `Stream([], true)`).
   */
  datatype Stream = Stream(lines: seq<Line>, readFails: bool)

  /** Python truthiness of an optional string: neither missing nor empty. */
  predicate Truthy(s: Option<string>) {
    s.Some? && s.value != ""
  }

  /** True iff every element of `motTests` is an object. */
  predicate AllTestObjects(items: seq<TestItem>) {
    forall i :: 0 <= i < |items| ==> items[i].TestObject?
  }

  /** The loaders admit a line when it decodes to an object with a truthy registration. */
  predicate HasRegistration(line: Line) {
    line.Object? && Truthy(line.vehicle.registration)
  }

  /** An admitted line is counted when every test in it is an object. */
  predicate Counted(line: Line) {
    HasRegistration(line) && AllTestObjects(line.vehicle.motTests)
  }

  function CountCounted(lines: seq<Line>): nat
    decreases |lines|
  {
    if lines == [] then 0
    else CountCounted(lines[..|lines| - 1]) + (if Counted(lines[|lines| - 1]) then 1 else 0)
  }

  /** The file name suffix every loader dispatches on. */
  predicate EndsWithJsonGz(name: string) {
    |name| >= 8 && name[|name| - 8..] == ".json.gz"
  }

  predicate StartsWith(s: string, prefix: string) {
    |prefix| <= |s| && s[..|prefix|] == prefix
  }
}
