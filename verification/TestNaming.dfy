/** Naming of scheduled tests: repeated test names get a number appended, and every scheduled run gets its tag. */
module TestNaming {
  import opened Common

  // ------------------------------------------------------------------ decimal numbers

  function Digit(n: nat): char
    requires n < 10
  {
    (n + '0' as int) as char
  }

  function Decimal(n: nat): (s: string)
    ensures |s| >= 1 && (n >= 10 <==> |s| >= 2)
  {
    if n < 10 then [Digit(n)] else Decimal(n / 10) + [Digit(n % 10)]
  }

  lemma {:induction false} DecimalInjective(m: nat, n: nat)
    requires Decimal(m) == Decimal(n)
    ensures m == n
    decreases m + n
  {
    var s := Decimal(m);
    assert s[|s| - 1] == Digit(m % 10) == Digit(n % 10);
    if m >= 10 && n >= 10 {
      assert s[..|s| - 1] == Decimal(m / 10) == Decimal(n / 10);
      DecimalInjective(m / 10, n / 10);
    }
  }

  lemma {:induction false} DecimalDigits(n: nat)
    ensures forall i :: 0 <= i < |Decimal(n)| ==> '0' <= Decimal(n)[i] <= '9'
  {
    if n < 10 {
    } else {
      DecimalDigits(n / 10);
    }
  }

  /** The number a decimal text stands for. */
  function Read(s: string): int {
    if s == "" then 0 else 10 * Read(s[..|s| - 1]) + (s[|s| - 1] as int - '0' as int)
  }

  /** The decimal text of a number is read back as the number, and has no leading zero. */
  lemma {:induction false} DecimalIsRead(n: nat)
    ensures Read(Decimal(n)) == n
    ensures n > 0 ==> Decimal(n)[0] != '0'
  {
    if n < 10 {
      assert Decimal(n)[..0] == "";
    } else {
      DecimalIsRead(n / 10);
      assert Decimal(n)[..|Decimal(n)| - 1] == Decimal(n / 10);
    }
  }

  // ------------------------------------------------------------------ test sets

  /** A configured test: its function, identified by the name it was registered under, and its parameters. */
  datatype Entry = Entry(fn: string, param: string)

  function Numbered(key: string, i: nat): string {
    key + Decimal(i)
  }

  lemma NumberedInjective(key: string, i: nat, j: nat)
    requires Numbered(key, i) == Numbered(key, j)
    ensures i == j
  {
    assert Numbered(key, i)[|key|..] == Decimal(i) && Numbered(key, j)[|key|..] == Decimal(j);
    DecimalInjective(i, j);
  }

  function Probes(key: string, n: nat): (s: seq<string>)
    ensures |s| == n && forall k :: 0 <= k < n ==> s[k] == Numbered(key, k + 2)
  {
    seq(n, k requires 0 <= k < n => Numbered(key, k + 2))
  }

  /** Fewer names are taken than have been probed, so probing stops. */
  lemma ProbesAreBounded(tests: map<string, Entry>, key: string, n: nat)
    requires forall k :: 0 <= k < n ==> Probes(key, n)[k] in tests
    ensures n <= |tests|
  {
    var probes := Probes(key, n);
    forall i, j | 0 <= i < j < n ensures probes[i] != probes[j] {
      if probes[i] == probes[j] {
        NumberedInjective(key, i + 2, j + 2);
      }
    }
    DistinctCardinality(probes);
    var taken := set x | x in probes;
    SubsetCardinality(taken, tests.Keys);
  }

  predicate IsFirstFree(tests: map<string, Entry>, key: string, i: nat) {
    && 2 <= i <= |tests| + 2 && Numbered(key, i) !in tests
    && forall j :: 2 <= j < i ==> Numbered(key, j) in tests
  }

  class TestSet {
    var tests: map<string, Entry>

    constructor ()
      ensures tests == map[]
    {
      tests := map[];
    }

    /** TestSet.add: the key itself, or the key with the least number from 2 on that is free.  No entry is
        overwritten, and the probing loop ends. */
    method Add(key: string, e: Entry) returns (used: string)
      modifies this
      ensures used !in old(tests) && tests == old(tests)[used := e]
      ensures key !in old(tests) ==> used == key
      ensures key in old(tests) ==> exists i :: IsFirstFree(old(tests), key, i) && used == Numbered(key, i)
    {
      if key !in tests {
        tests := tests[key := e];
        return key;
      }
      var i := 2;
      ProbesAreBounded(tests, key, 0);
      while true
        invariant tests == old(tests) && 2 <= i <= |tests| + 2
        invariant forall j :: 2 <= j < i ==> Numbered(key, j) in tests
        decreases |tests| + 3 - i
      {
        var k := Numbered(key, i);
        if k !in tests {
          tests := tests[k := e];
          return k;
        }
        i := i + 1;
        ProbesAreBounded(tests, key, i - 2);
      }
    }
  }

  // ------------------------------------------------------------------ parsing test arguments

  predicate IsKeyChar(c: char) {
    c !in {'\t', '\n', '\r', ' '} && c as int != 0x0C
  }

  /** Can the argument be split at i, as key=data? */
  predicate SplitsAt(arg: string, i: nat) {
    && 0 < i < |arg| - 1 && arg[i] == '='
    && (forall k :: 0 <= k < i ==> IsKeyChar(arg[k]))
    && (forall k :: i < k < |arg| ==> arg[k] != '\n')
  }

  /** The rightmost split below n. */
  function LastSplit(arg: string, n: nat): (i: Option<nat>)
    ensures i.Some? ==> i.value < n && SplitsAt(arg, i.value)
    ensures forall k :: 0 <= k < n && SplitsAt(arg, k) ==> i.Some? && k <= i.value
  {
    if n == 0 then None else if SplitsAt(arg, n - 1) then Some(n - 1) else LastSplit(arg, n - 1)
  }

  /** The key and data of an argument: the greedy split of the pattern, or the whole argument as key. */
  function KeyAndData(arg: string): (string, string) {
    match LastSplit(arg, |arg|)
    case Some(i) => (arg[..i], arg[i + 1..])
    case None => (arg, "")
  }

  /** Key and data make up the argument, with the last possible equals sign between them; an argument that cannot be
      split is its own key. */
  lemma KeyAndDataMean(arg: string)
    ensures var (key, data) := KeyAndData(arg);
      if exists i :: 0 <= i < |arg| && SplitsAt(arg, i)
      then arg == key + "=" + data && SplitsAt(arg, |key|) && forall i :: |key| < i < |arg| ==> !SplitsAt(arg, i)
      else key == arg && data == ""
  {
    match LastSplit(arg, |arg|)
    case Some(i) => assert arg == arg[..i] + [arg[i]] + arg[i + 1..];
    case None =>
  }

  /** For instance, a name without blanks, and parameters without an equals sign. */
  lemma SplitArgument(name: string, params: string)
    requires name != "" && params != ""
    requires forall i :: 0 <= i < |name| ==> name[i] !in " \t\r\n" && name[i] != 12 as char
    requires forall i :: 0 <= i < |params| ==> params[i] != '=' && params[i] != '\n'
    ensures KeyAndData(name + "=" + params) == (name, params)
  {
    var arg := name + "=" + params;
    assert arg[|name|] == '=';
    forall k | 0 <= k < |name| ensures IsKeyChar(arg[k]) {
      assert arg[k] == name[k];
      BlanksAreNoKeyChars(name[k]);
    }
    forall k | |name| < k < |arg| ensures arg[k] != '=' && arg[k] != '\n' {
      assert arg[k] == params[k - |name| - 1];
    }
    assert SplitsAt(arg, |name|);
    assert arg[..|name|] == name && arg[|name| + 1..] == params;
  }

  lemma BlanksAreNoKeyChars(c: char)
    ensures IsKeyChar(c) <==> c !in " \t\r\n" && c != 12 as char
  {
    assert " \t\r\n"[0] == ' ' && " \t\r\n"[1] == '\t' && " \t\r\n"[2] == '\r' && " \t\r\n"[3] == '\n';
  }

  /** The registered test functions: key and data give an entry, or None when the parameters are rejected. */
  type Registry = map<string, string -> Option<Entry>>

  function MakeEntry(registry: Registry, arg: string): Option<Entry> {
    var (key, data) := KeyAndData(arg);
    if key in registry then registry[key](data) else None
  }

  /** A name that add may give to an entry with this key. */
  ghost predicate IsNameFor(key: string, name: string) {
    name == key || exists n :: n >= 2 && name == Numbered(key, n)
  }

  /** The test set holds one entry for each argument, under names of their own. */
  ghost predicate HoldsAll(tests: map<string, Entry>, registry: Registry, args: seq<string>, names: seq<string>) {
    && |names| == |args| == |tests| && Distinct(names)
    && forall i :: 0 <= i < |args| ==> HoldsOne(tests, registry, args[i], names[i])
  }

  ghost predicate HoldsOne(tests: map<string, Entry>, registry: Registry, arg: string, name: string) {
    && name in tests && MakeEntry(registry, arg) == Some(tests[name])
    && IsNameFor(KeyAndData(arg).0, name)
  }

  lemma HoldsOneMore(tests: map<string, Entry>, registry: Registry, args: seq<string>, names: seq<string>,
                     arg: string, name: string, e: Entry)
    requires HoldsAll(tests, registry, args, names) && name !in tests
    requires MakeEntry(registry, arg) == Some(e) && IsNameFor(KeyAndData(arg).0, name)
    ensures HoldsAll(tests[name := e], registry, args + [arg], names + [name])
  {
    var after := tests[name := e];
    assert after.Keys == tests.Keys + {name};
    forall i | 0 <= i < |args| ensures HoldsOne(after, registry, args[i], names[i]) && names[i] != name {
      StillHolds(tests, registry, args[i], names[i], name, e);
    }
    assert HoldsOne(after, registry, arg, name);
    AllHeld(after, registry, args, names, arg, name);
  }

  lemma AllHeld(after: map<string, Entry>, registry: Registry, args: seq<string>, names: seq<string>,
                arg: string, name: string)
    requires |names| == |args| && |after| == |args| + 1 && Distinct(names)
    requires forall i :: 0 <= i < |args| ==> HoldsOne(after, registry, args[i], names[i]) && names[i] != name
    requires HoldsOne(after, registry, arg, name)
    ensures HoldsAll(after, registry, args + [arg], names + [name])
  {
  }

  lemma StillHolds(tests: map<string, Entry>, registry: Registry, arg: string, held: string, name: string, e: Entry)
    requires HoldsOne(tests, registry, arg, held) && name !in tests
    ensures HoldsOne(tests[name := e], registry, arg, held) && held != name
  {
  }

  method AddNext(fns: TestSet, registry: Registry, ghost args: seq<string>, ghost names: seq<string>,
                 ghost arg: string, key: string, e: Entry, ghost all: bool)
    returns (used: string)
    requires all ==> HoldsAll(fns.tests, registry, args, names)
    requires MakeEntry(registry, arg) == Some(e) && key == KeyAndData(arg).0
    modifies fns
    ensures all ==> HoldsAll(fns.tests, registry, args + [arg], names + [used])
  {
    ghost var before := fns.tests;
    used := fns.Add(key, e);
    if all {
      HoldsOneMore(before, registry, args, names, arg, used, e);
    }
  }

  lemma WholePrefix(args: seq<string>)
    ensures args[..|args|] == args
  {
  }

  lemma PrefixGrows(args: seq<string>, i: nat)
    requires i < |args|
    ensures args[..i + 1] == args[..i] + [args[i]]
  {
  }

  /** The arguments without an entry, in order. */
  ghost function Rejected(registry: Registry, args: seq<string>): seq<string> {
    Filter(args, arg => MakeEntry(registry, arg).None?)
  }

  lemma RejectedSnoc(registry: Registry, args: seq<string>, arg: string)
    ensures Rejected(registry, args + [arg])
         == Rejected(registry, args) + (if MakeEntry(registry, arg).None? then [arg] else [])
  {
    FilterSnoc(args, arg, a => MakeEntry(registry, a).None?);
  }

  ghost predicate AllAccepted(registry: Registry, args: seq<string>) {
    forall i :: 0 <= i < |args| ==> MakeEntry(registry, args[i]).Some?
  }

  lemma {:induction false} NoneRejected(registry: Registry, args: seq<string>)
    ensures Rejected(registry, args) == [] <==> AllAccepted(registry, args)
  {
    if args == [] {
    } else {
      var n := |args| - 1;
      NoneRejected(registry, args[..n]);
      assert args == args[..n] + [args[n]];
      RejectedSnoc(registry, args[..n], args[n]);
      assert AllAccepted(registry, args) <==> AllAccepted(registry, args[..n]) && MakeEntry(registry, args[n]).Some?;
    }
  }

  /** Config.Parse: when no argument is rejected the test set holds one entry for each, none lost to another;
      `names` says under which name. */
  method Parse(registry: Registry, args: seq<string>)
    returns (fns: TestSet, errors: seq<string>, ghost names: seq<string>)
    ensures fresh(fns)
    ensures errors == [] <==> AllAccepted(registry, args)
    ensures errors == Rejected(registry, args)
    ensures errors == [] ==> HoldsAll(fns.tests, registry, args, names)
  {
    fns := new TestSet();
    errors, names := [], [];
    for i := 0 to |args|
      invariant fresh(fns)
      invariant errors == Rejected(registry, args[..i])
      invariant errors == [] ==> HoldsAll(fns.tests, registry, args[..i], names)
    {
      PrefixGrows(args, i);
      RejectedSnoc(registry, args[..i], args[i]);
      errors, names := ParseOne(fns, registry, args[..i], names, args[i], errors);
    }
    WholePrefix(args);
    NoneRejected(registry, args);
  }

  /** One turn of the loop over the arguments. */
  method ParseOne(fns: TestSet, registry: Registry, ghost args: seq<string>, ghost names: seq<string>, arg: string,
                  errors: seq<string>)
    returns (after: seq<string>, ghost all: seq<string>)
    requires errors == [] ==> HoldsAll(fns.tests, registry, args, names)
    modifies fns
    ensures after == errors + (if MakeEntry(registry, arg).None? then [arg] else [])
    ensures after == [] ==> HoldsAll(fns.tests, registry, args + [arg], all)
  {
    var (key, data) := KeyAndData(arg);
    if key !in registry {
      return errors + [arg], names;
    }
    var e := registry[key](data);
    if e.None? {
      return errors + [arg], names;
    }
    var used := AddNext(fns, registry, args, names, arg, key, e.value, errors == []);
    after, all := errors, names + [used];
  }

  // ------------------------------------------------------------------ tags

  /** The name of run r of a test. */
  function RunName(test: string, r: nat): string {
    test + "-" + Decimal(r)
  }

  /** ProvisionerConfig.WithTag, on the tag. */
  function WithTag(base: string, tag: string): string {
    if base == "" then tag else base + "-" + tag
  }

  /** For instance, the first run of a test, and the name of a test that is configured again. */
  lemma TagExample()
    ensures Tag("base", "install", 1) == "base-install-1" && Tag("", "install", 12) == "install-12"
    ensures Numbered("install", 2) == "install2"
  {
    assert Decimal(1) == "1" && Decimal(2) == "2";
    assert Decimal(12) == Decimal(1) + "2";
    assert "install" + "-" + "1" == "install-1" && "base" + "-" + "install-1" == "base-install-1";
  }

  lemma {:induction false} RunNameInjective(a: string, m: nat, b: string, n: nat)
    requires RunName(a, m) == RunName(b, n)
    ensures a == b && m == n
  {
    var x, y, s := Decimal(m), Decimal(n), RunName(a, m);
    DecimalDigits(m);
    DecimalDigits(n);
    assert s[|s| - |x|..] == x && s[|s| - |y|..] == y;
    assert s[|a|] == '-' && s[|b|] == '-';
    forall i | |a| < i < |s| ensures s[i] != '-' { assert s[i] == x[i - |a| - 1]; }
    forall i | |b| < i < |s| ensures s[i] != '-' { assert s[i] == y[i - |b| - 1]; }
    assert |a| == |b|;
    assert s[..|a|] == a && s[..|b|] == b;
    DecimalInjective(m, n);
  }

  lemma TagInjective(base: string, a: string, m: nat, b: string, n: nat)
    requires Tag(base, a, m) == Tag(base, b, n)
    ensures a == b && m == n
  {
    var s, x, y := Tag(base, a, m), RunName(a, m), RunName(b, n);
    if base != "" {
      assert s[|base| + 1..] == x && s[|base| + 1..] == y;
    }
    RunNameInjective(a, m, b, n);
  }

  /** The suite's plan: tag and scheduled entry. */
  class Plan {
    var scheduled: map<string, Entry>

    constructor ()
      ensures scheduled == map[]
    {
      scheduled := map[];
    }

    /** Schedule. */
    method Schedule(tag: string, e: Entry)
      modifies this
      ensures scheduled == old(scheduled)[tag := e]
    {
      scheduled := scheduled[tag := e];
    }
  }

  /** Everything scheduled before run r, and the tests of `done` in run r: each under its tag, and nothing else.
      `planned` tells what a tag stands for. */
  ghost predicate IsPlan(scheduled: map<string, Entry>, planned: map<string, (string, nat)>, base: string,
                         tests: map<string, Entry>, r: nat, done: set<string>)
  {
    && scheduled.Keys == planned.Keys
    && (forall test, k {:trigger IsPlanned(tests, r, done, test, k)} :: IsPlanned(tests, r, done, test, k) ==>
          Tag(base, test, k) in planned)
    && (forall tag {:trigger planned[tag]} :: tag in planned ==>
          && tag == Tag(base, planned[tag].0, planned[tag].1)
          && IsPlanned(tests, r, done, planned[tag].0, planned[tag].1)
          && scheduled[tag] == tests[planned[tag].0])
  }

  /** The tag of run k of a test. */
  function Tag(base: string, test: string, k: nat): string {
    WithTag(base, RunName(test, k))
  }

  predicate IsPlanned(tests: map<string, Entry>, r: nat, done: set<string>, test: string, k: nat) {
    test in tests && (1 <= k < r || (k == r && test in done))
  }

  lemma NewTag(scheduled: map<string, Entry>, planned: map<string, (string, nat)>, base: string,
               tests: map<string, Entry>, r: nat, done: set<string>, test: string)
    requires IsPlan(scheduled, planned, base, tests, r, done) && test in tests && test !in done && r >= 1
    ensures Tag(base, test, r) !in scheduled
    ensures IsPlan(scheduled[Tag(base, test, r) := tests[test]], planned[Tag(base, test, r) := (test, r)],
                   base, tests, r, done + {test})
  {
    var tag := Tag(base, test, r);
    if tag in planned {
      TagInjective(base, planned[tag].0, planned[tag].1, test, r);
    }
    forall other, k | IsPlanned(tests, r, done + {test}, other, k)
      ensures Tag(base, other, k) in planned[tag := (test, r)]
    {
      assert IsPlanned(tests, r, done, other, k) || (other == test && k == r);
    }
  }

  lemma RunComplete(scheduled: map<string, Entry>, planned: map<string, (string, nat)>, base: string,
                    tests: map<string, Entry>, r: nat)
    requires r >= 1 && IsPlan(scheduled, planned, base, tests, r, tests.Keys)
    ensures IsPlan(scheduled, planned, base, tests, r + 1, {})
  {
    forall test, k | IsPlanned(tests, r + 1, {}, test, k) ensures Tag(base, test, k) in planned {
      assert IsPlanned(tests, r, tests.Keys, test, k);
    }
    forall tag | tag in planned ensures IsPlanned(tests, r + 1, {}, planned[tag].0, planned[tag].1) {
      assert IsPlanned(tests, r, tests.Keys, planned[tag].0, planned[tag].1);
    }
  }

  method ScheduleOne(plan: Plan, ghost before: map<string, (string, nat)>, base: string, tests: map<string, Entry>,
                     r: nat, test: string, ghost done: set<string>)
    returns (ghost planned: map<string, (string, nat)>)
    requires r >= 1 && IsPlan(plan.scheduled, before, base, tests, r, done) && test in tests && test !in done
    modifies plan
    ensures IsPlan(plan.scheduled, planned, base, tests, r, done + {test})
    ensures |plan.scheduled| == |old(plan.scheduled)| + 1
  {
    NewTag(plan.scheduled, before, base, tests, r, done, test);
    plan.Schedule(Tag(base, test, r), tests[test]);
    planned := before[Tag(base, test, r) := (test, r)];
  }

  /** One run of every test of the set, in any order. */
  method ScheduleRun(plan: Plan, ghost before: map<string, (string, nat)>, base: string, tests: map<string, Entry>,
                     r: nat)
    returns (ghost planned: map<string, (string, nat)>)
    requires r >= 1 && IsPlan(plan.scheduled, before, base, tests, r, {})
    modifies plan
    ensures IsPlan(plan.scheduled, planned, base, tests, r + 1, {})
    ensures |plan.scheduled| == |old(plan.scheduled)| + |tests|
  {
    var todo := tests.Keys;
    planned := before;
    ghost var done: set<string> := {};
    while todo != {}
      invariant todo == tests.Keys - done && done <= tests.Keys
      invariant IsPlan(plan.scheduled, planned, base, tests, r, done)
      invariant |plan.scheduled| == |old(plan.scheduled)| + |done|
      decreases todo
    {
      var test :| test in todo;
      planned := ScheduleOne(plan, planned, base, tests, r, test, done);
      todo := todo - {test};
      done := done + {test};
    }
    assert done == tests.Keys;
    RunComplete(plan.scheduled, planned, base, tests, r);
  }

  /** The scheduling loop: `repeat` runs of every test of the set, each under its own tag, so that no scheduled
      test is lost. */
  method ScheduleAll(base: string, tests: map<string, Entry>, repeat: nat) returns (plan: Plan)
    ensures fresh(plan)
    ensures |plan.scheduled| == repeat * |tests|
    ensures forall test, r :: IsPlanned(tests, repeat + 1, {}, test, r) ==>
      Tag(base, test, r) in plan.scheduled && plan.scheduled[Tag(base, test, r)] == tests[test]
  {
    plan := new Plan();
    ghost var planned: map<string, (string, nat)> := map[];
    var r := 1;
    while r <= repeat
      invariant 1 <= r <= repeat + 1 && fresh(plan)
      invariant IsPlan(plan.scheduled, planned, base, tests, r, {})
      invariant |plan.scheduled| == (r - 1) * |tests|
    {
      planned := ScheduleRun(plan, planned, base, tests, r);
      assert r * |tests| == (r - 1) * |tests| + |tests|;
      r := r + 1;
    }
    forall test, k | IsPlanned(tests, repeat + 1, {}, test, k)
      ensures Tag(base, test, k) in plan.scheduled && plan.scheduled[Tag(base, test, k)] == tests[test]
    {
      var tag := Tag(base, test, k);
      TagInjective(base, planned[tag].0, planned[tag].1, test, k);
    }
  }
}
