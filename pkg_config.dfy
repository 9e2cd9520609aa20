/** The pkg-config generator (`Tools/make-pkgconfig.swift`): it locates
    `llvm-config`, checks the version it reports against a required major
    version, and writes a `llvm.pc` file.  Running processes, the file
    system and the environment are parameters or left out; what is modelled
    is the text processing and the checks. */
module PkgConfig {
  import opened Wrappers

  // ---------------------------------------------------------------------
  // Newlines

  /** `Character.isNewline`: line feed, vertical tab, form feed, carriage
      return, next line, line separator and paragraph separator. */
  predicate IsNewline(c: char) {
    c == '\n' || c == '\U{0B}' || c == '\U{0C}' || c == '\r'
      || c == '\U{85}' || c == '\U{2028}' || c == '\U{2029}'
  }

  /** `replacingNewlinesBySpaces()`: the `reduce(into:)` fold appending each
      character, or a space in place of a newline.  The result has the same
      length, keeps every other character where it was, and has no newline
      left. */
  method ReplacingNewlinesBySpaces(s: string) returns (r: string)
    ensures |r| == |s|
    ensures forall i | 0 <= i < |s| :: r[i] == (if IsNewline(s[i]) then ' ' else s[i])
    ensures forall i | 0 <= i < |r| :: !IsNewline(r[i])
  {
    r := "";
    for i := 0 to |s|
      invariant |r| == i
      invariant forall k | 0 <= k < i :: r[k] == (if IsNewline(s[k]) then ' ' else s[k])
    {
      var c := s[i];
      r := r + [if IsNewline(c) then ' ' else c];
    }
  }

  // ---------------------------------------------------------------------
  // Splitting and joining

  /** `joined(separator:)`. */
  function Join(parts: seq<string>, sep: char): string {
    if parts == [] then ""
    else if |parts| == 1 then parts[0]
    else parts[0] + [sep] + Join(parts[1..], sep)
  }

  /** `components(separatedBy:)`: the runs between separators, empty runs
      included.  There is always at least one, none holds the separator, and
      joining them back gives the string. */
  function Components(s: string, sep: char): (r: seq<string>)
    ensures |r| >= 1
    ensures forall k | 0 <= k < |r| :: sep !in r[k]
    ensures Join(r, sep) == s
  {
    if s == [] then [""]
    else
      var rest := Components(s[1..], sep);
      if s[0] == sep then
        assert Join([""] + rest, sep) == [sep] + Join(rest, sep) by {
          assert ([""] + rest)[1..] == rest;
        }
        [""] + rest
      else
        var r := [[s[0]] + rest[0]] + rest[1..];
        assert r[1..] == rest[1..];
        assert Join(r, sep) == [s[0]] + Join(rest, sep);
        r
  }

  /** A run without separators is one component. */
  lemma {:induction false} ComponentsOfPlain(a: string, sep: char)
    requires sep !in a
    ensures Components(a, sep) == [a]
    decreases |a|
  {
    if a != [] {
      ComponentsOfPlain(a[1..], sep);
      assert [a[0]] + a[1..] == a;
    }
  }

  /** A run without separators followed by a separator starts a new
      component. */
  lemma {:induction false} ComponentsOfSeparated(a: string, sep: char, b: string)
    requires sep !in a
    ensures Components(a + [sep] + b, sep) == [a] + Components(b, sep)
    decreases |a|
  {
    var s := a + [sep] + b;
    if a == [] {
      assert s[1..] == b;
    } else {
      assert s[1..] == a[1..] + [sep] + b;
      ComponentsOfSeparated(a[1..], sep, b);
      assert [a[0]] + a[1..] == a;
    }
  }

  /** Splitting a joined list of separator-free parts gives the parts
      back. */
  lemma {:induction false} ComponentsOfJoin(parts: seq<string>, sep: char)
    requires |parts| >= 1
    requires forall k | 0 <= k < |parts| :: sep !in parts[k]
    ensures Components(Join(parts, sep), sep) == parts
  {
    if |parts| == 1 {
      ComponentsOfPlain(parts[0], sep);
    } else {
      ComponentsOfJoin(parts[1..], sep);
      ComponentsOfSeparated(parts[0], sep, Join(parts[1..], sep));
      assert [parts[0]] + parts[1..] == parts;
    }
  }

  /** `split(separator:)` with its default of omitting empty runs. */
  function NonEmptyComponents(s: string, sep: char): (r: seq<string>)
    ensures forall k | 0 <= k < |r| :: r[k] != [] && sep !in r[k]
  {
    NonEmpty(Components(s, sep))
  }

  /** The non-empty parts, in their order: every part it keeps is a
      non-empty part, and every non-empty part is kept. */
  function NonEmpty(parts: seq<string>): (r: seq<string>)
    ensures |r| <= |parts|
    ensures forall k | 0 <= k < |r| :: r[k] != [] && r[k] in parts
    ensures forall k | 0 <= k < |parts| && parts[k] != [] :: parts[k] in r
  {
    if parts == [] then []
    else
      var rest := NonEmpty(parts[1..]);
      assert forall k | 1 <= k < |parts| :: parts[k] == parts[1..][k - 1];
      (if parts[0] == [] then [] else [parts[0]]) + rest
  }

  /** Dropping the empty parts keeps the order: it distributes over
      concatenation. */
  lemma {:induction false} NonEmptyConcat(a: seq<string>, b: seq<string>)
    ensures NonEmpty(a + b) == NonEmpty(a) + NonEmpty(b)
    decreases |a|
  {
    if a != [] {
      assert (a + b)[1..] == a[1..] + b;
      NonEmptyConcat(a[1..], b);
    } else {
      assert a + b == b;
    }
  }

  /** Parts that are all non-empty are kept as they are. */
  lemma {:induction false} NonEmptyOfNonEmpty(parts: seq<string>)
    requires forall k | 0 <= k < |parts| :: parts[k] != []
    ensures NonEmpty(parts) == parts
    decreases |parts|
  {
    if parts != [] {
      NonEmptyOfNonEmpty(parts[1..]);
      assert [parts[0]] + parts[1..] == parts;
    }
  }

  /** `split(separator:)` undoes a join of non-empty, separator-free
      parts. */
  lemma SplitOfJoin(parts: seq<string>, sep: char)
    requires |parts| >= 1
    requires forall k | 0 <= k < |parts| :: parts[k] != [] && sep !in parts[k]
    ensures NonEmptyComponents(Join(parts, sep), sep) == parts
  {
    ComponentsOfJoin(parts, sep);
    NonEmptyOfNonEmpty(parts);
  }

  // ---------------------------------------------------------------------
  // Locating an executable

  /** `find(_:)`.  The file system is `fileExists`, path concatenation
      (`appendingPathComponent`) is `append`, and `environmentPath` is the
      value of `PATH`, or its default (`PathOrDefault`).  A name holding a
      slash is returned as it is; otherwise the current directory and then
      each entry of the search path is tried in order, and the first
      candidate that exists is returned.  If there is none, the executable is
      reported as not found. */
  method Find(executable: string, currentDirectory: string, environmentPath: string,
              fileExists: string -> bool, append: (string, string) -> string)
    returns (r: Completion<string>)
    ensures '/' in executable ==> r == Returned(executable)
    ensures '/' !in executable && fileExists(append(currentDirectory, executable)) ==>
      r == Returned(append(currentDirectory, executable))
    ensures r.Returned? && '/' !in executable ==> fileExists(r.value)
    ensures r.Threw? <==>
      '/' !in executable && !fileExists(append(currentDirectory, executable)) &&
      NoneExists(NonEmptyComponents(environmentPath, ':'), executable, fileExists, append)
    ensures r.Returned? && '/' !in executable && !fileExists(append(currentDirectory, executable)) ==>
      var bases := NonEmptyComponents(environmentPath, ':');
      exists k | 0 <= k < |bases| ::
        r.value == append(bases[k], executable) && NoneExists(bases[..k], executable, fileExists, append)
  {
    if '/' in executable {
      return Returned(executable);
    }
    var candidate := append(currentDirectory, executable);
    if fileExists(candidate) {
      return Returned(candidate);
    }
    var found := FirstExisting(NonEmptyComponents(environmentPath, ':'), executable, fileExists, append);
    if found.Some? {
      return Returned(found.value);
    }
    return Threw;
  }

  /** The loop over the search path: the first directory holding the
      executable, if any. */
  method FirstExisting(bases: seq<string>, executable: string,
                       fileExists: string -> bool, append: (string, string) -> string)
    returns (r: Option<string>)
    ensures r.None? <==> NoneExists(bases, executable, fileExists, append)
    ensures r.Some? ==> fileExists(r.value)
    ensures r.Some? ==> exists k | 0 <= k < |bases| ::
      r.value == append(bases[k], executable) && NoneExists(bases[..k], executable, fileExists, append)
  {
    var i := 0;
    while i < |bases| && !fileExists(append(bases[i], executable))
      invariant 0 <= i <= |bases|
      invariant NoneExists(bases[..i], executable, fileExists, append)
    {
      assert bases[..i + 1] == bases[..i] + [bases[i]];
      i := i + 1;
    }
    if i < |bases| {
      assert !NoneExists(bases, executable, fileExists, append);
      return Some(append(bases[i], executable));
    }
    assert bases[..i] == bases;
    return None;
  }

  /** No directory of `bases` holds the executable. */
  predicate NoneExists(bases: seq<string>, executable: string,
                       fileExists: string -> bool, append: (string, string) -> string) {
    forall k | 0 <= k < |bases| :: !fileExists(append(bases[k], executable))
  }

  /** `environment["PATH"] ?? "/usr/bin"`. */
  function PathOrDefault(environmentPath: Option<string>): (r: string)
    ensures environmentPath.Some? ==> r == environmentPath.value
    ensures environmentPath.None? ==> r == "/usr/bin"
  {
    if environmentPath.Some? then environmentPath.value else "/usr/bin"
  }

  /** Without `PATH` only `/usr/bin` is searched. */
  lemma DefaultSearchPath()
    ensures NonEmptyComponents(PathOrDefault(None), ':') == ["/usr/bin"]
  {
    var path := PathOrDefault(None);
    ComponentsOfPlain(path, ':');
    NonEmptyOfNonEmpty([path]);
  }

  // ---------------------------------------------------------------------
  // Decimal integers

  /** The largest and smallest values of Swift's `Int`. */
  const IntMax: int := 0x7FFF_FFFF_FFFF_FFFF
  const IntMin: int := -0x8000_0000_0000_0000

  predicate IsDigit(c: char) {
    '0' <= c <= '9'
  }

  function DigitValue(c: char): nat
    requires IsDigit(c)
  {
    c as int - '0' as int
  }

  /** The value of a run of decimal digits, most significant first. */
  function DigitsValue(s: string): nat
    requires forall k | 0 <= k < |s| :: IsDigit(s[k])
  {
    if s == [] then 0 else DigitsValue(s[..|s| - 1]) * 10 + DigitValue(s[|s| - 1])
  }

  /** `Int(_:)` on a string: an optional sign, then one or more decimal
      digits, with a value that fits; `None` for anything else. */
  function ParseInt(s: string): (r: Option<int>)
    ensures r.Some? ==> IntMin <= r.value <= IntMax
    ensures s == [] ==> r.None?
  {
    var negative := |s| > 0 && s[0] == '-';
    var digits := if |s| > 0 && (s[0] == '-' || s[0] == '+') then s[1..] else s;
    if digits == [] || exists k | 0 <= k < |digits| :: !IsDigit(digits[k]) then None
    else
      var v: int := if negative then 0 - DigitsValue(digits) as int else DigitsValue(digits);
      if IntMin <= v <= IntMax then Some(v) else None
  }

  /** The decimal digits of a natural number, without leading zeros. */
  function Digits(n: nat): (r: string)
    ensures |r| >= 1
    ensures forall k | 0 <= k < |r| :: IsDigit(r[k])
    ensures r[0] != '-' && r[0] != '+'
    ensures DigitsValue(r) == n
  {
    var last := ('0' as int + n % 10) as char;
    if n < 10 then
      assert DigitsValue([last]) == DigitValue(last) by {
        assert [last][..0] == [];
      }
      [last]
    else
      var r := Digits(n / 10) + [last];
      assert r[..|r| - 1] == Digits(n / 10);
      r
  }

  /** `String(describing:)` on an `Int`. */
  function Decimal(n: int): (r: string)
    ensures '.' !in r
  {
    if n < 0 then "-" + Digits(-n) else Digits(n)
  }

  /** Printing an `Int` and parsing it back gives the same number. */
  lemma ParseDecimal(n: int)
    requires IntMin <= n <= IntMax
    ensures ParseInt(Decimal(n)) == Some(n)
  {
    if n < 0 {
      assert Decimal(n)[1..] == Digits(-n);
    }
  }

  // ---------------------------------------------------------------------
  // The required major version

  /** `requiredVersionMajor` as written: `arguments.count > 0 ?
      Int(arguments[1])! : 15`.  The arguments always include the program's
      own path, so the condition always holds.  `None` is a trap: reading an
      argument that is not there, or force-unwrapping one that is not a
      number. */
  function RequiredVersionMajorAsWritten(arguments: seq<string>): (r: Option<int>)
    requires |arguments| >= 1
    ensures r.Some? ==> |arguments| > 1 && r == ParseInt(arguments[1])
  {
    if |arguments| > 0 then
      if |arguments| > 1 then ParseInt(arguments[1]) else None
    else Some(15)
  }

  /** Without a user argument the script as written traps instead of using
      the default of 15. */
  lemma DefaultIsUnreachable(program: string)
    ensures RequiredVersionMajorAsWritten([program]).None?
  {
  }

  /** The evidently intended reading, `arguments.count > 1`: an argument,
      when given, must be a number; without one the default of 15 applies. */
  function RequiredVersionMajor(arguments: seq<string>): (r: Option<int>)
    requires |arguments| >= 1
    ensures |arguments| == 1 ==> r == Some(15)
    ensures |arguments| > 1 ==> (r.Some? <==> ParseInt(arguments[1]).Some?)
  {
    if |arguments| > 1 then ParseInt(arguments[1]) else Some(15)
  }

  /** With an argument the two readings agree. */
  lemma ReadingsAgreeWithArgument(arguments: seq<string>)
    requires |arguments| > 1
    ensures RequiredVersionMajorAsWritten(arguments) == RequiredVersionMajor(arguments)
  {
  }

  // ---------------------------------------------------------------------
  // Version checks

  /** The `compactMap` of `Int(_:)` over the parts: the numbers, in order,
      with every part that is not a number dropped. */
  function Numbers(parts: seq<string>): (r: seq<int>)
    ensures |r| <= |parts|
  {
    if parts == [] then [] else Kept(parts[0]) + Numbers(parts[1..])
  }

  /** What `compactMap` keeps of one part. */
  function Kept(part: string): (r: seq<int>)
    ensures |r| <= 1
  {
    var n := ParseInt(part);
    if n.Some? then [n.value] else []
  }

  /** The numbers of two runs of parts are those of the first followed by
      those of the second. */
  lemma {:induction false} NumbersConcat(a: seq<string>, b: seq<string>)
    ensures Numbers(a + b) == Numbers(a) + Numbers(b)
  {
    if a == [] {
      assert a + b == b;
    } else {
      assert (a + b)[0] == a[0];
      assert (a + b)[1..] == a[1..] + b;
      NumbersConcat(a[1..], b);
    }
  }

  /** A part that is not a number is dropped without a trace: the numbers
      are those of the remaining parts. */
  lemma {:induction false} NonNumericPartDropped(a: seq<string>, part: string, b: seq<string>)
    requires ParseInt(part).None?
    ensures Numbers(a + [part] + b) == Numbers(a + b)
  {
    NoNumberIn(part);
    NumbersConcat(a + [part], b);
    NumbersConcat(a, [part]);
    NumbersConcat(a, b);
  }

  lemma NoNumberIn(part: string)
    requires ParseInt(part).None?
    ensures Numbers([part]) == []
  {
    var single := [part];
    assert single[0] == part && single[1..] == [];
  }

  /** `versionComponents`. */
  function VersionComponents(version: string): seq<int> {
    Numbers(Components(version, '.'))
  }

  datatype VersionError = InvalidVersion(version: string) | RequiresLlvm(major: int)

  datatype VersionCheck = Accepted(components: seq<int>) | Rejected(error: VersionError)

  /** The two guards on the version `llvm-config` reports: exactly three
      numbers, the first of them at least the required major version. */
  function CheckVersion(version: string, requiredVersionMajor: int): (r: VersionCheck)
    ensures r.Accepted? <==>
      |VersionComponents(version)| == 3 && VersionComponents(version)[0] >= requiredVersionMajor
    ensures r.Accepted? ==> r.components == VersionComponents(version)
    ensures r == Rejected(InvalidVersion(version)) <==> |VersionComponents(version)| != 3
    ensures r == Rejected(RequiresLlvm(requiredVersionMajor)) <==>
      |VersionComponents(version)| == 3 && VersionComponents(version)[0] < requiredVersionMajor
  {
    var components := VersionComponents(version);
    if |components| != 3 then Rejected(InvalidVersion(version))
    else if components[0] < requiredVersionMajor then Rejected(RequiresLlvm(requiredVersionMajor))
    else Accepted(components)
  }

  /** The `Version:` field: the three numbers joined by dots. */
  function VersionField(components: seq<int>): string {
    Join(DecimalAll(components), '.')
  }

  function DecimalAll(ns: seq<int>): (r: seq<string>)
    ensures |r| == |ns|
    ensures forall k | 0 <= k < |ns| :: r[k] == Decimal(ns[k])
  {
    if ns == [] then [] else [Decimal(ns[0])] + DecimalAll(ns[1..])
  }

  /** A well-formed version `a.b.c` whose major part is large enough is
      accepted with its three numbers, and the generated `Version:` field
      reproduces it. */
  lemma WellFormedVersion(a: int, b: int, c: int, requiredVersionMajor: int)
    requires IntMin <= a <= IntMax && IntMin <= b <= IntMax && IntMin <= c <= IntMax
    requires a >= requiredVersionMajor
    ensures var version := Join([Decimal(a), Decimal(b), Decimal(c)], '.');
      CheckVersion(version, requiredVersionMajor) == Accepted([a, b, c]) &&
      VersionField([a, b, c]) == version
  {
    var parts := [Decimal(a), Decimal(b), Decimal(c)];
    ComponentsOfJoin(parts, '.');
    NumbersOfDecimals(a, b, c);
    assert DecimalAll([a, b, c]) == parts;
  }

  /** The decimal forms of three numbers parse back to those numbers. */
  lemma NumbersOfDecimals(a: int, b: int, c: int)
    requires IntMin <= a <= IntMax && IntMin <= b <= IntMax && IntMin <= c <= IntMax
    ensures Numbers([Decimal(a), Decimal(b), Decimal(c)]) == [a, b, c]
  {
    var parts := [Decimal(a), Decimal(b), Decimal(c)];
    ParseDecimal(a);
    ParseDecimal(b);
    ParseDecimal(c);
    assert parts[1..] == [Decimal(b), Decimal(c)];
    assert parts[1..][1..] == [Decimal(c)];
    assert Numbers([Decimal(c)]) == [c];
    assert Numbers([Decimal(b), Decimal(c)]) == [b, c];
  }
}
