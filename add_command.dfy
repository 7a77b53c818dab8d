/**
 * The argument handling of `handleAdd` in main.go: the flag scan that
 * collects title, comment, tags and labels, `parseLabels`, and the new
 * link they make up.
 */
module AddCommand {
  import opened Wrappers
  import opened Links

  // ---------------------------------------------------------------------
  // parseLabels
  // ---------------------------------------------------------------------

  /**
   * `strings.SplitN(v, "=", 2)` when it gives two parts: the text before the
   * first `=` and everything after it; `None` when `v` holds no `=`.
   */
  function SplitLabel(v: string): (r: Option<(string, string)>)
    ensures r.None? <==> '=' !in v
    ensures r.Some? ==> r.value.0 + "=" + r.value.1 == v && '=' !in r.value.0
    decreases |v|
  {
    if v == [] then None
    else if v[0] == '=' then Some(([], v[1..]))
    else match SplitLabel(v[1..])
      case None => None
      case Some(kv) => Some(([v[0]] + kv.0, kv.1))
  }

  /** The split is the only one whose key holds no `=`: the key ends at the first `=`. */
  lemma {:induction false} SplitLabelUnique(v: string, k: string, val: string)
    requires k + "=" + val == v && '=' !in k
    ensures SplitLabel(v) == Some((k, val))
    decreases |k|
  {
    if k == [] {
      assert v[0] == '=' && v[1..] == val;
    } else {
      assert v[0] == k[0] && v[0] != '=';
      assert v[1..] == k[1..] + "=" + val;
      SplitLabelUnique(v[1..], k[1..], val);
      assert [k[0]] + k[1..] == k;
    }
  }

  /** The map `parseLabels` builds: every `k=v` input in order, later ones overwriting. */
  function LabelsOf(vals: seq<string>): map<string, string>
    decreases |vals|
  {
    if vals == [] then map[]
    else
      var m := LabelsOf(vals[..|vals| - 1]);
      match SplitLabel(vals[|vals| - 1])
      case None => m
      case Some(kv) => m[kv.0 := kv.1]
  }

  method ParseLabels(vals: seq<string>) returns (m: map<string, string>)
    ensures m == LabelsOf(vals)
  {
    m := map[];
    for i := 0 to |vals|
      invariant m == LabelsOf(vals[..i])
    {
      var parts := SplitLabel(vals[i]);
      if parts.Some? {
        m := m[parts.value.0 := parts.value.1];
      }
      assert vals[..i + 1][..i] == vals[..i];
    }
    assert vals[..|vals|] == vals;
  }

  /** `v` holds a `=` and `k` is the text before the first one. */
  predicate HasKey(v: string, k: string) {
    SplitLabel(v).Some? && SplitLabel(v).value.0 == k
  }

  /** The keys are exactly the prefixes before `=` of the inputs that hold one. */
  lemma {:induction false} LabelsOfKeys(vals: seq<string>, k: string)
    ensures k in LabelsOf(vals) <==> exists i :: 0 <= i < |vals| && HasKey(vals[i], k)
    decreases |vals|
  {
    if vals != [] {
      var init := vals[..|vals| - 1];
      LabelsOfKeys(init, k);
      if exists i :: 0 <= i < |vals| && HasKey(vals[i], k) {
        var i :| 0 <= i < |vals| && HasKey(vals[i], k);
        if i < |init| {
          assert init[i] == vals[i];
        }
      }
      if exists i :: 0 <= i < |init| && HasKey(init[i], k) {
        var i :| 0 <= i < |init| && HasKey(init[i], k);
        assert init[i] == vals[i];
      }
    }
  }

  /** Of several inputs with one key, the last one gives the value. */
  lemma {:induction false} LabelsOfLastWins(vals: seq<string>, i: nat)
    requires i < |vals| && SplitLabel(vals[i]).Some?
    requires forall j :: i < j < |vals| ==>
      SplitLabel(vals[j]).None? || SplitLabel(vals[j]).value.0 != SplitLabel(vals[i]).value.0
    ensures SplitLabel(vals[i]).value.0 in LabelsOf(vals)
    ensures LabelsOf(vals)[SplitLabel(vals[i]).value.0] == SplitLabel(vals[i]).value.1
    decreases |vals|
  {
    if i < |vals| - 1 {
      var init := vals[..|vals| - 1];
      assert init[i] == vals[i];
      assert forall j :: i < j < |init| ==> init[j] == vals[j];
      LabelsOfLastWins(init, i);
    }
  }

  /** The value is everything after the first `=`, and may itself hold `=`. */
  lemma ValueKeepsLaterEquals()
    ensures LabelsOf(["a=b=c"]) == map["a" := "b=c"]
  {
    SplitLabelUnique("a=b=c", "a", "b=c");
    assert ["a=b=c"][..0] == [];
  }

  /** An input without `=` is dropped. */
  lemma PlainInputDropped()
    ensures LabelsOf(["plain"]) == map[]
  {
  }

  /** Two inputs with one key: the later value is kept. */
  lemma LaterLabelWins(k: string, first: string, second: string)
    requires '=' !in k
    ensures LabelsOf([k + "=" + first, k + "=" + second]) == map[k := second]
  {
    var vals := [k + "=" + first, k + "=" + second];
    SplitLabelUnique(vals[0], k, first);
    SplitLabelUnique(vals[1], k, second);
    assert vals[..1] == [vals[0]];
    assert [vals[0]][..0] == [];
    assert LabelsOf([vals[0]]) == map[k := first];
    assert LabelsOf(vals) == map[k := first][k := second];
  }

  // ---------------------------------------------------------------------
  // The flag loop
  // ---------------------------------------------------------------------

  /** What the flag loop collects. */
  datatype AddFlags = AddFlags(title: string, comment: string, tags: seq<string>, labels: seq<string>)

  const NoFlags := AddFlags("", "", [], [])

  /** The four flags that take the next argument as their value. */
  predicate IsFlag(a: string) {
    a == "--title" || a == "--comment" || a == "--tag" || a == "--label"
  }

  /**
   * Scanning from `i` never reads past the end: no flag is met as the last
   * argument. main.go indexes out of range (a panic) otherwise.
   */
  predicate ScanOk(args: seq<string>, i: nat)
    decreases |args| - i
  {
    if i >= |args| then true
    else if IsFlag(args[i]) then i + 1 < |args| && ScanOk(args, i + 2)
    else ScanOk(args, i + 1)
  }

  /** The effect of one flag with its value on what has been collected. */
  function Take(flag: string, value: string, acc: AddFlags): AddFlags
    requires IsFlag(flag)
  {
    if flag == "--title" then acc.(title := value)
    else if flag == "--comment" then acc.(comment := value)
    else if flag == "--tag" then acc.(tags := acc.tags + [value])
    else acc.(labels := acc.labels + [value])
  }

  /** The scan from position `i` on, starting from what `acc` has collected. */
  function ScanFrom(args: seq<string>, i: nat, acc: AddFlags): AddFlags
    requires ScanOk(args, i)
    decreases |args| - i
  {
    if i >= |args| then acc
    else if IsFlag(args[i]) then ScanFrom(args, i + 2, Take(args[i], args[i + 1], acc))
    else ScanFrom(args, i + 1, acc)
  }

  /** The flags of `linker add <url> ...`: the scan starts after program name, "add" and the URL. */
  function Flags(args: seq<string>): AddFlags
    requires ScanOk(args, 3)
  {
    ScanFrom(args, 3, NoFlags)
  }

  method ScanAddFlags(args: seq<string>) returns (title: string, comment: string, tags: seq<string>, labels: seq<string>)
    requires ScanOk(args, 3)
    ensures AddFlags(title, comment, tags, labels) == Flags(args)
  {
    title, comment, tags, labels := "", "", [], [];
    var i := 3;
    while i < |args|
      invariant ScanOk(args, i)
      invariant ScanFrom(args, i, AddFlags(title, comment, tags, labels)) == Flags(args)
      decreases |args| - i
    {
      if args[i] == "--title" {
        i := i + 1;
        title := args[i];
      } else if args[i] == "--comment" {
        i := i + 1;
        comment := args[i];
      } else if args[i] == "--tag" {
        i := i + 1;
        tags := tags + [args[i]];
      } else if args[i] == "--label" {
        i := i + 1;
        labels := labels + [args[i]];
      }
      i := i + 1;
    }
  }

  /** A scan that reaches the end of `args` carries on unchanged into what follows. */
  lemma {:induction false} ScanAppend(args: seq<string>, rest: seq<string>, i: nat, acc: AddFlags)
    requires i <= |args| && ScanOk(args, i)
    ensures ScanOk(args + rest, i) == ScanOk(args + rest, |args|)
    ensures ScanOk(args + rest, |args|) ==>
      ScanFrom(args + rest, i, acc) == ScanFrom(args + rest, |args|, ScanFrom(args, i, acc))
    decreases |args| - i
  {
    if i < |args| {
      var all := args + rest;
      assert all[i] == args[i];
      if IsFlag(args[i]) {
        assert all[i + 1] == args[i + 1];
        ScanAppend(args, rest, i + 2, Take(args[i], args[i + 1], acc));
      } else {
        ScanAppend(args, rest, i + 1, acc);
      }
    }
  }

  /** Each `--tag x` appends `x` to the tags, in order. */
  lemma TagAppends(args: seq<string>, x: string)
    requires |args| >= 3 && ScanOk(args, 3)
    ensures ScanOk(args + ["--tag", x], 3)
    ensures Flags(args + ["--tag", x]) == Flags(args).(tags := Flags(args).tags + [x])
  {
    var all := args + ["--tag", x];
    assert all[|args|] == "--tag" && all[|args| + 1] == x;
    ScanAppend(args, ["--tag", x], 3, NoFlags);
  }

  /** Each `--label x` appends `x` to the label inputs, in order. */
  lemma LabelAppends(args: seq<string>, x: string)
    requires |args| >= 3 && ScanOk(args, 3)
    ensures ScanOk(args + ["--label", x], 3)
    ensures Flags(args + ["--label", x]) == Flags(args).(labels := Flags(args).labels + [x])
  {
    var all := args + ["--label", x];
    assert all[|args|] == "--label" && all[|args| + 1] == x;
    ScanAppend(args, ["--label", x], 3, NoFlags);
  }

  /** A later `--title x` replaces any earlier title. */
  lemma TitleLastWins(args: seq<string>, x: string)
    requires |args| >= 3 && ScanOk(args, 3)
    ensures ScanOk(args + ["--title", x], 3)
    ensures Flags(args + ["--title", x]) == Flags(args).(title := x)
  {
    var all := args + ["--title", x];
    assert all[|args|] == "--title" && all[|args| + 1] == x;
    ScanAppend(args, ["--title", x], 3, NoFlags);
  }

  /** A later `--comment x` replaces any earlier comment. */
  lemma CommentLastWins(args: seq<string>, x: string)
    requires |args| >= 3 && ScanOk(args, 3)
    ensures ScanOk(args + ["--comment", x], 3)
    ensures Flags(args + ["--comment", x]) == Flags(args).(comment := x)
  {
    var all := args + ["--comment", x];
    assert all[|args|] == "--comment" && all[|args| + 1] == x;
    ScanAppend(args, ["--comment", x], 3, NoFlags);
  }

  /** Anything that is not one of the four flags is skipped. */
  lemma OtherArgumentSkipped(args: seq<string>, y: string)
    requires |args| >= 3 && ScanOk(args, 3) && !IsFlag(y)
    ensures ScanOk(args + [y], 3)
    ensures Flags(args + [y]) == Flags(args)
  {
    var all := args + [y];
    assert all[|args|] == y;
    ScanAppend(args, [y], 3, NoFlags);
  }

  /** A flag given last has no value to read: the scan would index past the end. */
  lemma TrailingFlagFails(args: seq<string>, y: string)
    requires |args| >= 3 && ScanOk(args, 3) && IsFlag(y)
    ensures !ScanOk(args + [y], 3)
  {
    var all := args + [y];
    assert all[|args|] == y;
    ScanAppend(args, [y], 3, NoFlags);
  }

  /** A flag's value is taken as it is, even when it looks like a flag itself. */
  lemma FlagValueTakenVerbatim()
    ensures ScanOk(["linker", "add", "u", "--title", "--tag"], 3)
    ensures Flags(["linker", "add", "u", "--title", "--tag"]) == NoFlags.(title := "--tag")
  {
  }

  // ---------------------------------------------------------------------
  // The new link
  // ---------------------------------------------------------------------

  /**
   * The link `handleAdd` appends to the store. `None` is the usage message
   * for fewer than three arguments; `id` stands for the clock-derived ID.
   */
  method NewLink(args: seq<string>, id: string) returns (link: Option<Link>)
    requires ScanOk(args, 3)
    ensures link.None? <==> |args| < 3
    ensures link.Some? ==>
      var f := Flags(args);
      link.value == Link(id, args[2], f.title, f.comment, f.tags, LabelsOf(f.labels), 0, None)
  {
    if |args| < 3 {
      return None;
    }
    var url := args[2];
    var title, comment, tags, labels := ScanAddFlags(args);
    var parsed := ParseLabels(labels);
    return Some(Link(id, url, title, comment, tags, parsed, 0, None));
  }
}
