/** The settings minarch.c keeps in minarch.cfg: option indices and button bindings, written by
    Config_write and restored by Config_readOptions and Config_readControls. */
module Config {
  import opened Options
  import opened CStrings
  import opened ConfigText

  /** preset is the index an option starts from. */
  datatype Opt = Opt(key: string, values: seq<string>, value: nat, preset: nat, lock: bool)

  /** local is -1 when unbound; mod: together with MENU. */
  datatype Bind = Bind(name: string, local: int, mod: bool, preset: int)

  // ---- button labels ----

  const LOCAL_BUTTON_COUNT: nat := 16

  const LABELS: nat := 33

  const BUTTONS: seq<string> := [
    "UP", "DOWN", "LEFT", "RIGHT", "A", "B", "X", "Y", "START", "SELECT", "L1", "R1", "L2", "R2", "L3", "R3"
  ]

  function Button(i: nat): string
    requires i < LOCAL_BUTTON_COUNT
  {
    BUTTONS[i]
  }

  /** button_labels: NONE, the buttons, the buttons with MENU. */
  function Label(j: nat): string
    requires j < LABELS
  {
    if j == 0 then "NONE"
    else if j <= LOCAL_BUTTON_COUNT then Button(j - 1)
    else "MENU+" + Button(j - 1 - LOCAL_BUTTON_COUNT)
  }

  predicate Labelled(b: Bind) { -1 <= b.local < LOCAL_BUTTON_COUNT }

  /** Only a bound button carries MENU. */
  predicate GoodBind(b: Bind) {
    Labelled(b) && -1 <= b.preset < LOCAL_BUTTON_COUNT && (b.mod ==> b.local >= 0)
  }

  /** What Config_write prints for a binding. */
  function Encode(b: Bind): string
    requires Labelled(b)
  {
    Label(b.local + 1 + if b.mod then LOCAL_BUTTON_COUNT else 0)
  }

  /** The id of the first label from j on that equals s; -1 if there is none. */
  function IdFrom(s: string, j: nat): (id: int)
    requires j <= LABELS
    ensures -1 <= id < LABELS - 1
    decreases LABELS - j
  {
    if j == LABELS then -1 else if Label(j) == s then j - 1 else IdFrom(s, j + 1)
  }

  /** What the readers make of a label. */
  function Decode(s: string): (r: (int, bool))
    ensures -1 <= r.0 < LOCAL_BUTTON_COUNT && (r.1 ==> r.0 >= 0)
  {
    var id := IdFrom(s, 0);
    if id >= LOCAL_BUTTON_COUNT then (id - LOCAL_BUTTON_COUNT, true) else (id, false)
  }

  lemma ButtonsDiffer(i: nat, j: nat)
    requires i < j < LOCAL_BUTTON_COUNT
    ensures Button(i) != Button(j)
  {
  }

  lemma ButtonIsPlain(i: nat)
    requires i < LOCAL_BUTTON_COUNT
    ensures Button(i) != [] && Button(i)[0] != 'M' && Button(i) != "NONE" && ':' !in Button(i)
  {
  }

  lemma MenuLabel(s: string)
    ensures ("MENU+" + s)[0] == 'M' && ("MENU+" + s)[5..] == s && "NONE"[0] != 'M'
  {
  }

  lemma LabelsDiffer(i: nat, j: nat)
    requires i < j < LABELS
    ensures Label(i) != Label(j)
  {
    hide Button;
    var n := LOCAL_BUTTON_COUNT;
    if j > n {
      MenuLabel(Button(j - 1 - n));
      if i > n {
        MenuLabel(Button(i - 1 - n));
        ButtonsDiffer(i - 1 - n, j - 1 - n);
      } else if i > 0 {
        ButtonIsPlain(i - 1);
      }
    } else if i > 0 {
      ButtonsDiffer(i - 1, j - 1);
    } else {
      ButtonIsPlain(j - 1);
    }
  }

  lemma {:induction false} IdOfLabel(j: nat, k: nat)
    requires j <= k < LABELS
    ensures IdFrom(Label(k), j) == k - 1
    decreases k - j
  {
    hide Label;
    if j < k {
      LabelsDiffer(j, k);
      IdOfLabel(j + 1, k);
    }
  }

  /** A binding survives its label exactly when it is bound or carries no MENU, which every
      writer of bindings sees to. */
  lemma BindReadsBackIff(b: Bind)
    requires Labelled(b)
    ensures Decode(Encode(b)) == (b.local, b.mod) <==> b.local >= 0 || !b.mod
  {
    hide IdFrom, Label;
    IdOfLabel(0, b.local + 1 + if b.mod then LOCAL_BUTTON_COUNT else 0);
  }

  lemma {:induction false} NoSuchLabel(s: string, j: nat)
    requires j <= LABELS && forall k :: j <= k < LABELS ==> Label(k) != s
    ensures IdFrom(s, j) == -1
    decreases LABELS - j
  {
    hide Label;
    if j < LABELS { NoSuchLabel(s, j + 1); }
  }

  /** Any text that is no label unbinds, as NONE does. */
  lemma UnknownUnbinds(s: string)
    requires forall k :: 0 <= k < LABELS ==> Label(k) != s
    ensures Decode(s) == (-1, false) && Decode("NONE") == (-1, false)
  {
    hide IdFrom;
    NoSuchLabel(s, 0);
    IdOfLabel(0, 0);
  }

  // ---- options ----

  /** Option_getValueIndex: the first value that equals v, or 0. */
  function IndexFrom(values: seq<string>, v: string, i: nat): (r: nat)
    requires i <= |values|
    ensures r == 0 || r < |values|
    decreases |values| - i
  {
    if i == |values| then 0 else if values[i] == v then i else IndexFrom(values, v, i + 1)
  }

  predicate GoodOpt(o: Opt) { o.value < |o.values| && o.preset < |o.values| }

  predicate Different(values: seq<string>) {
    forall i, j :: 0 <= i < j < |values| ==> values[i] != values[j]
  }

  lemma {:induction false} IndexOfValue(values: seq<string>, k: nat, i: nat)
    requires Different(values) && i <= k < |values|
    ensures IndexFrom(values, values[k], i) == k
    decreases k - i
  {
    if i < k { IndexOfValue(values, k, i + 1); }
  }

  /** A value that occurs twice counts where it stands first, and one that does not occur counts
      as the first of all. */
  lemma {:induction false} IndexIsFirst(values: seq<string>, v: string, i: nat)
    requires i <= |values|
    ensures var r := IndexFrom(values, v, i);
            if exists k :: i <= k < |values| && values[k] == v
            then r >= i && values[r] == v && forall k :: i <= k < r ==> values[k] != v
            else r == 0
    decreases |values| - i
  {
    if i < |values| { IndexIsFirst(values, v, i + 1); }
  }

  // ---- reading one setting ----

  /** strrchr(value, ':'): a colon and what follows it is an artifact of default.cfg. */
  function BeforeColon(s: string): string {
    if s == [] || ':' !in s then s
    else if s[|s| - 1] == ':' then s[..|s| - 1] else BeforeColon(s[..|s| - 1])
  }

  /** It is the last colon. */
  lemma {:induction false} LastColonCuts(a: string, b: string)
    requires ':' !in b
    ensures BeforeColon(a + ":" + b) == a
    decreases |b|
  {
    var s := a + ":" + b;
    assert s[|a|] == ':';
    if b == [] {
      assert s[..|s| - 1] == a;
    } else {
      assert s[|s| - 1] == b[|b| - 1] && b[|b| - 1] in b;
      assert s[..|s| - 1] == a + ":" + b[..|b| - 1];
      LastColonCuts(a, b[..|b| - 1]);
    }
  }

  function ReadOpt(o: Opt, cfg: Option<string>): Opt
    requires o.key != []
  {
    if cfg.None? then o
    else
      var lock := o.lock || Locks(cfg.value, 0, o.key);
      match GetValue(cfg.value, o.key)
      case None => o.(lock := lock)
      case Some(v) => o.(value := IndexFrom(o.values, v, 0), lock := lock)
  }

  function BindKey(name: string): (key: string)
    ensures key != []
  {
    "bind " + name
  }

  function ReadBind(b: Bind, cfg: Option<string>, control: bool): Bind {
    if cfg.None? then b
    else
      match GetValue(cfg.value, BindKey(b.name))
      case None => b
      case Some(v) =>
        var (local, mod) := Decode(if control then BeforeColon(v) else v);
        b.(local := local, mod := mod)
  }

  // ---- layers ----

  function ReadLayers(o: Opt, cfgs: seq<Option<string>>): (r: Opt)
    requires o.key != []
    ensures r.key == o.key && r.values == o.values && r.preset == o.preset
    ensures GoodOpt(o) ==> GoodOpt(r)
    decreases |cfgs|
  {
    if cfgs == [] then o else ReadOpt(ReadLayers(o, cfgs[..|cfgs| - 1]), cfgs[|cfgs| - 1])
  }

  function ReadBindLayers(b: Bind, cfgs: seq<Option<string>>, control: bool): (r: Bind)
    ensures r.name == b.name && r.preset == b.preset
    ensures GoodBind(b) ==> GoodBind(r)
    decreases |cfgs|
  {
    if cfgs == [] then b
    else ReadBind(ReadBindLayers(b, cfgs[..|cfgs| - 1], control), cfgs[|cfgs| - 1], control)
  }

  lemma ThreeLayers(o: Opt, a: Option<string>, b: Option<string>, c: Option<string>)
    requires o.key != []
    ensures ReadLayers(o, [a, b, c]) == ReadOpt(ReadOpt(ReadOpt(o, a), b), c)
  {
    hide ReadOpt;
    assert [a, b, c][..2] == [a, b] && [a, b][..1] == [a] && [a][..0] == [];
    assert ReadLayers(o, [a]) == ReadOpt(o, a);
    assert ReadLayers(o, [a, b]) == ReadOpt(ReadLayers(o, [a]), b);
  }

  lemma TwoLayers(b: Bind, lower: Option<string>, upper: Option<string>, control: bool)
    ensures ReadBindLayers(b, [lower, upper], control) == ReadBind(ReadBind(b, lower, control), upper, control)
  {
    hide ReadBind;
    assert [lower, upper][..1] == [lower] && [lower][..0] == [];
    assert ReadBindLayers(b, [lower], control) == ReadBind(b, lower, control);
  }

  /** What a file says about a key, if it exists and says anything. */
  function Present(cfg: Option<string>, key: string): Option<string>
    requires key != []
  {
    if cfg.None? then None else GetValue(cfg.value, key)
  }

  /** k is the last file that mentions the key. */
  predicate LastPresent(cfgs: seq<Option<string>>, key: string, k: nat)
    requires key != []
  {
    && k < |cfgs| && Present(cfgs[k], key).Some?
    && forall m :: k < m < |cfgs| ==> Present(cfgs[m], key) == None
  }

  predicate Absent(cfgs: seq<Option<string>>, key: string)
    requires key != []
  {
    forall k :: 0 <= k < |cfgs| ==> Present(cfgs[k], key) == None
  }

  /** The last file that mentions an option decides it; if none does, it stays as it was. */
  lemma {:induction false} LastPresentWins(o: Opt, cfgs: seq<Option<string>>, k: nat)
    requires o.key != []
    ensures LastPresent(cfgs, o.key, k) ==>
              ReadLayers(o, cfgs).value == IndexFrom(o.values, Present(cfgs[k], o.key).value, 0)
    ensures Absent(cfgs, o.key) ==> ReadLayers(o, cfgs).value == o.value
    decreases |cfgs|
  {
    hide GetValue, Locks, IndexFrom;
    if cfgs != [] {
      var n := |cfgs| - 1;
      LastPresentWins(o, cfgs[..n], k);
      assert forall m :: 0 <= m < n ==> cfgs[..n][m] == cfgs[m];
    }
  }

  /** A lock stays, and any file that locks the option adds one. */
  lemma {:induction false} LockedIff(o: Opt, cfgs: seq<Option<string>>)
    requires o.key != []
    ensures ReadLayers(o, cfgs).lock <==>
            o.lock || exists k :: 0 <= k < |cfgs| && cfgs[k].Some? && Locks(cfgs[k].value, 0, o.key)
    decreases |cfgs|
  {
    hide GetValue, Locks, IndexFrom;
    if cfgs != [] {
      var n := |cfgs| - 1;
      LockedIff(o, cfgs[..n]);
      assert forall m :: 0 <= m < n ==> cfgs[..n][m] == cfgs[m];
    }
  }

  /** And so for a binding. */
  lemma {:induction false} LastPresentBinds(b: Bind, cfgs: seq<Option<string>>, control: bool, k: nat)
    ensures LastPresent(cfgs, BindKey(b.name), k) ==>
              var v := Present(cfgs[k], BindKey(b.name)).value;
              var r := ReadBindLayers(b, cfgs, control);
              (r.local, r.mod) == Decode(if control then BeforeColon(v) else v)
    ensures Absent(cfgs, BindKey(b.name)) ==> ReadBindLayers(b, cfgs, control) == b
    decreases |cfgs|
  {
    hide GetValue, Decode, BindKey, BeforeColon;
    if cfgs != [] {
      var n := |cfgs| - 1;
      LastPresentBinds(b, cfgs[..n], control, k);
      assert forall m :: 0 <= m < n ==> cfgs[..n][m] == cfgs[m];
    }
  }

  // ---- whole lists ----

  /** Every option of ps as the files, one over the other, leave it. */
  ghost predicate Opts(os: seq<Opt>, ps: seq<Opt>, cfgs: seq<Option<string>>) {
    |os| == |ps| && forall i :: 0 <= i < |os| ==> ps[i].key != [] && os[i] == ReadLayers(ps[i], cfgs)
  }

  ghost predicate Binds(bs: seq<Bind>, ps: seq<Bind>, cfgs: seq<Option<string>>, control: bool) {
    |bs| == |ps| && forall i :: 0 <= i < |bs| ==> bs[i] == ReadBindLayers(ps[i], cfgs, control)
  }

  function Preset(os: seq<Opt>): seq<Opt> { seq(|os|, i requires 0 <= i < |os| => os[i].(value := os[i].preset)) }

  function Unset(bs: seq<Bind>, control: bool): seq<Bind> {
    seq(|bs|, i requires 0 <= i < |bs| => bs[i].(local := if control then bs[i].preset else -1, mod := false))
  }

  lemma AbsentPreset(before: seq<Opt>, os: seq<Opt>, cfgs: seq<Option<string>>)
    requires Opts(os, Preset(before), cfgs)
    ensures |os| == |before|
    ensures forall i :: 0 <= i < |os| ==>
              before[i].key != [] && (Absent(cfgs, before[i].key) ==> os[i].value == before[i].preset)
  {
    hide ReadLayers, Absent;
    var ps := Preset(before);
    forall i | 0 <= i < |os|
      ensures before[i].key != [] && (Absent(cfgs, before[i].key) ==> os[i].value == before[i].preset)
    {
      assert os[i] == ReadLayers(ps[i], cfgs);
      LastPresentWins(ps[i], cfgs, 0);
    }
  }

  lemma AbsentUnset(before: seq<Bind>, bs: seq<Bind>, cfgs: seq<Option<string>>, control: bool)
    requires Binds(bs, Unset(before, control), cfgs, control)
    ensures |bs| == |before|
    ensures forall i :: 0 <= i < |bs| && Absent(cfgs, BindKey(before[i].name)) ==>
              bs[i] == before[i].(local := if control then before[i].preset else -1, mod := false)
  {
    hide ReadBindLayers, Absent, BindKey;
    var ps := Unset(before, control);
    forall i | 0 <= i < |bs| && Absent(cfgs, BindKey(before[i].name))
      ensures bs[i] == before[i].(local := if control then before[i].preset else -1, mod := false)
    {
      assert bs[i] == ReadBindLayers(ps[i], cfgs, control);
      LastPresentBinds(ps[i], cfgs, control, 0);
    }
  }

  lemma OneLayer(ps: seq<Opt>, os: seq<Opt>, cfg: Option<string>)
    requires |os| == |ps| && forall i :: 0 <= i < |os| ==> ps[i].key != [] && os[i] == ReadOpt(ps[i], cfg)
    ensures Opts(os, ps, [cfg])
  {
    hide ReadOpt;
    assert [cfg][..0] == [];
    forall i | 0 <= i < |os| ensures os[i] == ReadLayers(ps[i], [cfg]) { assert ReadLayers(ps[i], []) == ps[i]; }
  }

  predicate GoodOpts(os: seq<Opt>) { forall i :: 0 <= i < |os| ==> GoodOpt(os[i]) }

  /** The keys C can look up: not empty, and no two alike. */
  predicate Keyed(os: seq<Opt>) {
    && (forall i :: 0 <= i < |os| ==> os[i].key != [])
    && (forall i, j :: 0 <= i < j < |os| ==> os[i].key != os[j].key)
  }

  lemma OptsKeep(ps: seq<Opt>, os: seq<Opt>, cfgs: seq<Option<string>>)
    requires Opts(os, ps, cfgs)
    ensures Keyed(ps) ==> Keyed(os)
    ensures GoodOpts(ps) ==> GoodOpts(os)
  {
    hide ReadOpt;
    forall i | 0 <= i < |os| ensures os[i].key == ps[i].key && (GoodOpt(ps[i]) ==> GoodOpt(os[i])) {
      assert os[i] == ReadLayers(ps[i], cfgs);
    }
  }

  lemma JustOne(o: Opt, cfg: Option<string>)
    requires o.key != []
    ensures ReadLayers(o, [cfg]) == ReadOpt(o, cfg)
  {
    assert [cfg][..0] == [];
    hide ReadOpt;
  }

  lemma OptsThrice(a: seq<Opt>, b: seq<Opt>, c: seq<Opt>, d: seq<Opt>, x: Option<string>, y: Option<string>,
                   z: Option<string>)
    requires Opts(b, a, [x]) && Opts(c, b, [y]) && Opts(d, c, [z])
    ensures Opts(d, a, [x, y, z])
  {
    hide ReadLayers, ReadOpt;
    forall i | 0 <= i < |a| ensures a[i].key != [] && d[i] == ReadLayers(a[i], [x, y, z]) {
      assert b[i] == ReadLayers(a[i], [x]) && c[i] == ReadLayers(b[i], [y]) && d[i] == ReadLayers(c[i], [z]);
      JustOne(a[i], x);
      JustOne(b[i], y);
      JustOne(c[i], z);
      ThreeLayers(a[i], x, y, z);
    }
  }

  // ---- writing ----

  datatype Settings = Settings(frontend: seq<Opt>, core: seq<Opt>, controls: seq<Bind>, shortcuts: seq<Bind>)

  predicate GoodBinds(bs: seq<Bind>) { forall i :: 0 <= i < |bs| ==> GoodBind(bs[i]) }

  predicate InRange(c: Settings) {
    GoodOpts(c.frontend) && GoodOpts(c.core) && GoodBinds(c.controls) && GoodBinds(c.shortcuts)
  }

  function OptEntries(os: seq<Opt>): (r: seq<(string, string)>)
    requires GoodOpts(os)
    ensures |r| == |os| && forall i :: 0 <= i < |os| ==> r[i] == (os[i].key, os[i].values[os[i].value])
  {
    if os == [] then [] else [(os[0].key, os[0].values[os[0].value])] + OptEntries(os[1..])
  }

  function BindEntries(bs: seq<Bind>): (r: seq<(string, string)>)
    requires GoodBinds(bs)
    ensures |r| == |bs| && forall i :: 0 <= i < |bs| ==> r[i] == (BindKey(bs[i].name), Encode(bs[i]))
  {
    if bs == [] then [] else [(BindKey(bs[0].name), Encode(bs[0]))] + BindEntries(bs[1..])
  }

  const GAMEPAD: string := "minarch_gamepad_type"

  function GamepadEntries(gamepad: Option<string>): seq<(string, string)> {
    if gamepad.None? then [] else [(GAMEPAD, gamepad.value)]
  }

  /** The lines of the file; gamepad is the number printed on devices with other controllers. */
  function Entries(c: Settings, gamepad: Option<string>): seq<(string, string)>
    requires InRange(c)
  {
    OptEntries(c.frontend) + OptEntries(c.core) + GamepadEntries(gamepad) + BindEntries(c.controls)
        + BindEntries(c.shortcuts)
  }

  lemma OneMoreLine(entries: seq<(string, string)>, key: string, value: string)
    ensures Text(entries) + Line(key, value) == Text(entries + [(key, value)])
  {
    TextAppend(entries, [(key, value)]);
    assert [(key, value)][1..] == [];
    assert Text([(key, value)]) == Line(key, value) + [];
    hide Text, Line;
  }

  // ---- the settings, updated in place ----

  class Store {
    var frontend: array<Opt>
    var core: array<Opt>
    var controls: array<Bind>
    var shortcuts: array<Bind>

    ghost function Value(): Settings
      reads this, frontend, core, controls, shortcuts
    {
      Settings(frontend[..], core[..], controls[..], shortcuts[..])
    }

    ghost predicate Valid()
      reads this, frontend, core, controls, shortcuts
    {
      && frontend != core && controls != shortcuts
      && Keyed(frontend[..]) && Keyed(core[..]) && InRange(Value())
    }

    constructor (frontend: array<Opt>, core: array<Opt>, controls: array<Bind>, shortcuts: array<Bind>)
      requires frontend != core && controls != shortcuts && Keyed(frontend[..]) && Keyed(core[..])
      requires InRange(Settings(frontend[..], core[..], controls[..], shortcuts[..]))
      ensures this.frontend == frontend && this.core == core && this.controls == controls && this.shortcuts == shortcuts
      ensures Valid()
    {
      this.frontend, this.core, this.controls, this.shortcuts := frontend, core, controls, shortcuts;
    }

    /** OptionList_setOptionValue: the option is found again by its key. */
    method SetOptionValue(list: array<Opt>, key: string, value: string, ghost at: nat)
      requires at < list.Length && list[at].key == key && forall j :: 0 <= j < at ==> list[j].key != key
      modifies list
      ensures list[at] == old(list[at]).(value := IndexFrom(old(list[at]).values, value, 0))
      ensures forall j :: 0 <= j < list.Length && j != at ==> list[j] == old(list[j])
    {
      for i := 0 to list.Length
        invariant i <= at && forall j :: 0 <= j < list.Length ==> list[j] == old(list[j])
      {
        if list[i].key == key {
          list[i] := list[i].(value := IndexFrom(list[i].values, value, 0));
          return;
        }
      }
    }

    /** One list of Config_readOptionsString. */
    method ReadOptionList(list: array<Opt>, cfg: string)
      requires Keyed(list[..]) && '\0' !in cfg
      modifies list
      ensures forall i :: 0 <= i < list.Length ==> list[i] == ReadOpt(old(list[i]), Some(cfg))
    {
      hide GetValue, Locks;
      var value := new char[VALUE_MAX](_ => '\0');
      ghost var before := list[..];
      for i := 0 to list.Length
        invariant forall j :: 0 <= j < i ==> list[j] == ReadOpt(before[j], Some(cfg))
        invariant forall j :: i <= j < list.Length ==> list[j] == before[j]
      {
        var o := list[i];
        var found, lock := ConfigGetValue(cfg, o.key, value, o.lock);
        list[i] := o.(lock := lock);
        if found { SetOptionValue(list, o.key, CString(value[..]), i); }
      }
    }

    method ReadBindList(list: array<Bind>, cfg: string, control: bool)
      requires '\0' !in cfg
      modifies list
      ensures forall i :: 0 <= i < list.Length ==> list[i] == ReadBind(old(list[i]), Some(cfg), control)
    {
      hide GetValue, Decode;
      var value := new char[VALUE_MAX](_ => '\0');
      for i := 0 to list.Length
        invariant forall j :: 0 <= j < i ==> list[j] == ReadBind(old(list[j]), Some(cfg), control)
        invariant forall j :: i <= j < list.Length ==> list[j] == old(list[j])
      {
        var b := list[i];
        var found, _ := ConfigGetValue(cfg, BindKey(b.name), value, false);
        if found {
          var v := CString(value[..]);
          var (local, mod) := Decode(if control then BeforeColon(v) else v);
          list[i] := b.(local := local, mod := mod);
        }
      }
    }

    method ReadOptionsString(cfg: Option<string>)
      requires Valid() && (cfg.Some? ==> '\0' !in cfg.value)
      modifies frontend, core
      ensures Valid()
      ensures Opts(frontend[..], old(frontend[..]), [cfg]) && Opts(core[..], old(core[..]), [cfg])
    {
      hide GetValue, Locks;
      ghost var f, c := frontend[..], core[..];
      if cfg.Some? {
        ReadOptionList(frontend, cfg.value);
        ReadOptionList(core, cfg.value);
      }
      OneLayer(f, frontend[..], cfg);
      OneLayer(c, core[..], cfg);
      OptsKeep(f, frontend[..], [cfg]);
      OptsKeep(c, core[..], [cfg]);
    }

    /** Config_readOptions: system, default and user settings, one over the other. */
    method ReadOptions(system: Option<string>, defaults: Option<string>, user: Option<string>)
      requires Valid()
      requires (system.Some? ==> '\0' !in system.value) && (defaults.Some? ==> '\0' !in defaults.value)
      requires user.Some? ==> '\0' !in user.value
      modifies frontend, core
      ensures Valid()
      ensures Opts(frontend[..], old(frontend[..]), [system, defaults, user])
      ensures Opts(core[..], old(core[..]), [system, defaults, user])
    {
      hide Opts, InRange, Keyed;
      ghost var f0, c0 := frontend[..], core[..];
      ReadOptionsString(system);
      ghost var f1, c1 := frontend[..], core[..];
      ReadOptionsString(defaults);
      ghost var f2, c2 := frontend[..], core[..];
      ReadOptionsString(user);
      OptsThrice(f0, f1, f2, frontend[..], system, defaults, user);
      OptsThrice(c0, c1, c2, core[..], system, defaults, user);
    }

    method ReadControlsString(cfg: Option<string>)
      requires Valid() && (cfg.Some? ==> '\0' !in cfg.value)
      modifies controls, shortcuts
      ensures Valid()
      ensures forall i :: 0 <= i < controls.Length ==> controls[i] == ReadBind(old(controls[i]), cfg, true)
      ensures forall i :: 0 <= i < shortcuts.Length ==> shortcuts[i] == ReadBind(old(shortcuts[i]), cfg, false)
    {
      hide GetValue, Decode;
      if cfg.Some? {
        ReadBindList(controls, cfg.value, true);
        ReadBindList(shortcuts, cfg.value, false);
      }
    }

    /** Config_readControls: no system settings here. */
    method ReadControls(defaults: Option<string>, user: Option<string>)
      requires Valid()
      requires (defaults.Some? ==> '\0' !in defaults.value) && (user.Some? ==> '\0' !in user.value)
      modifies controls, shortcuts
      ensures Valid()
      ensures Binds(controls[..], old(controls[..]), [defaults, user], true)
      ensures Binds(shortcuts[..], old(shortcuts[..]), [defaults, user], false)
    {
      hide ReadBind, ReadBindLayers, InRange;
      ghost var c, s := controls[..], shortcuts[..];
      ReadControlsString(defaults);
      ReadControlsString(user);
      forall i | 0 <= i < |c| ensures controls[i] == ReadBindLayers(c[i], [defaults, user], true) {
        TwoLayers(c[i], defaults, user, true);
      }
      forall i | 0 <= i < |s| ensures shortcuts[i] == ReadBindLayers(s[i], [defaults, user], false) {
        TwoLayers(s[i], defaults, user, false);
      }
    }

    /** OptionControls_bind and OptionShortcuts_bind, once a button has been pressed. */
    method BindTo(list: array<Bind>, i: nat, local: nat, menu: bool)
      requires Valid() && (list == controls || list == shortcuts) && i < list.Length && local < LOCAL_BUTTON_COUNT
      modifies list
      ensures Valid() && list[..] == old(list[..])[i := old(list[i]).(local := local, mod := menu)]
    {
      list[i] := list[i].(local := local);
      if menu {
        list[i] := list[i].(mod := true);
      } else {
        list[i] := list[i].(mod := false);
      }
    }

    /** OptionControls_unbind and OptionShortcuts_unbind. */
    method Unbind(list: array<Bind>, i: nat)
      requires Valid() && (list == controls || list == shortcuts) && i < list.Length
      modifies list
      ensures Valid() && list[..] == old(list[..])[i := old(list[i]).(local := -1, mod := false)]
    {
      list[i] := list[i].(local := -1);
      list[i] := list[i].(mod := false);
    }

    method ResetOptions(list: array<Opt>)
      modifies list
      ensures list[..] == Preset(old(list[..]))
    {
      for i := 0 to list.Length
        invariant forall j :: 0 <= j < i ==> list[j] == old(list[j]).(value := old(list[j]).preset)
        invariant forall j :: i <= j < list.Length ==> list[j] == old(list[j])
      {
        list[i] := list[i].(value := list[i].preset);
      }
    }

    method ResetBinds(list: array<Bind>, control: bool)
      modifies list
      ensures list[..] == Unset(old(list[..]), control)
    {
      for i := 0 to list.Length
        invariant forall j :: 0 <= j < i ==> list[j] == Unset(old(list[..]), control)[j]
        invariant forall j :: i <= j < list.Length ==> list[j] == old(list[j])
      {
        list[i] := list[i].(local := if control then list[i].preset else -1, mod := false);
      }
    }

    /** Config_restore, up to the file it removes: presets, then the files that are left. Nothing
        set before remains. */
    method Restore(system: Option<string>, defaults: Option<string>, user: Option<string>)
      requires Valid()
      requires (system.Some? ==> '\0' !in system.value) && (defaults.Some? ==> '\0' !in defaults.value)
      requires user.Some? ==> '\0' !in user.value
      modifies frontend, core, controls, shortcuts
      ensures Valid()
      ensures Opts(frontend[..], Preset(old(frontend[..])), [system, defaults, user])
      ensures Opts(core[..], Preset(old(core[..])), [system, defaults, user])
      ensures Binds(controls[..], Unset(old(controls[..]), true), [defaults, user], true)
      ensures Binds(shortcuts[..], Unset(old(shortcuts[..]), false), [defaults, user], false)
      // what no file mentions ends at its preset, and a shortcut without a button
      ensures forall i :: 0 <= i < frontend.Length && Absent([system, defaults, user], old(frontend[i]).key) ==>
                            frontend[i].value == old(frontend[i]).preset
      ensures forall i :: 0 <= i < core.Length && Absent([system, defaults, user], old(core[i]).key) ==>
                            core[i].value == old(core[i]).preset
      ensures forall i :: 0 <= i < controls.Length && Absent([defaults, user], BindKey(old(controls[i]).name)) ==>
                            controls[i] == old(controls[i]).(local := old(controls[i]).preset, mod := false)
      ensures forall i :: 0 <= i < shortcuts.Length && Absent([defaults, user], BindKey(old(shortcuts[i]).name)) ==>
                            shortcuts[i] == old(shortcuts[i]).(local := -1, mod := false)
    {
      ghost var f, k, c, h := frontend[..], core[..], controls[..], shortcuts[..];
      ResetOptions(frontend);
      ResetOptions(core);
      ResetBinds(controls, true);
      ResetBinds(shortcuts, false);
      hide Opts, Binds, InRange, Preset, Unset, Keyed;
      ReadOptions(system, defaults, user);
      ReadControls(defaults, user);
      hide *;
      AbsentPreset(f, frontend[..], [system, defaults, user]);
      AbsentPreset(k, core[..], [system, defaults, user]);
      AbsentUnset(c, controls[..], [defaults, user], true);
      AbsentUnset(h, shortcuts[..], [defaults, user], false);
    }

    method PrintOptions(before: string, list: array<Opt>, ghost done: seq<(string, string)>) returns (text: string)
      requires before == Text(done) && GoodOpts(list[..])
      ensures text == Text(done + OptEntries(list[..]))
    {
      hide Line, Text;
      text := before;
      assert done + [] == done;
      for i := 0 to list.Length
        invariant text == Text(done + OptEntries(list[..i]))
      {
        var o := list[i];
        assert o == list[..][i];
        text := text + Line(o.key, o.values[o.value]);
        assert done + OptEntries(list[..i + 1]) == done + OptEntries(list[..i]) + [(o.key, o.values[o.value])];
        OneMoreLine(done + OptEntries(list[..i]), o.key, o.values[o.value]);
      }
      assert list[..list.Length] == list[..];
    }

    method PrintBinds(before: string, list: array<Bind>, ghost done: seq<(string, string)>) returns (text: string)
      requires before == Text(done) && GoodBinds(list[..])
      ensures text == Text(done + BindEntries(list[..]))
    {
      hide Line, Encode, Text;
      text := before;
      assert done + [] == done;
      for i := 0 to list.Length
        invariant text == Text(done + BindEntries(list[..i]))
      {
        var b := list[i];
        assert b == list[..][i];
        text := text + Line(BindKey(b.name), Encode(b));
        assert done + BindEntries(list[..i + 1]) == done + BindEntries(list[..i]) + [(BindKey(b.name), Encode(b))];
        OneMoreLine(done + BindEntries(list[..i]), BindKey(b.name), Encode(b));
      }
      assert list[..list.Length] == list[..];
    }

    /** Config_write, up to the file it writes to. */
    method Write(gamepad: Option<string>) returns (text: string)
      requires Valid()
      ensures text == Text(Entries(Value(), gamepad))
    {
      ghost var c := Value();
      ghost var o, k, g, b := OptEntries(c.frontend), OptEntries(c.core), GamepadEntries(gamepad),
                                         BindEntries(c.controls);
      hide Line, OptEntries, BindEntries;
      assert [] + o == o && Text([]) == "";
      text := PrintOptions("", frontend, []);
      text := PrintOptions(text, core, o);
      if gamepad.Some? {
        text := text + Line(GAMEPAD, gamepad.value);
        OneMoreLine(o + k, GAMEPAD, gamepad.value);
      } else {
        assert o + k + g == o + k;
      }
      text := PrintBinds(text, controls, o + k + g);
      text := PrintBinds(text, shortcuts, o + k + g + b);
    }
  }

  // ---- round trip ----

  predicate SameOptions(a: seq<Opt>, b: seq<Opt>) {
    |a| == |b| && forall i :: 0 <= i < |a| ==> a[i].key == b[i].key && a[i].values == b[i].values
  }

  predicate SameBinds(a: seq<Bind>, b: seq<Bind>) {
    |a| == |b| && forall i :: 0 <= i < |a| ==> a[i].name == b[i].name
  }

  /** What the settings must satisfy for the file to be read back: lines that do not answer
      for later keys, and different values within an option. */
  ghost predicate Writable(c: Settings, gamepad: Option<string>) {
    && InRange(c) && Unambiguous(Entries(c, gamepad))
    && (forall o :: o in c.frontend ==> Different(o.values))
    && (forall o :: o in c.core ==> Different(o.values))
  }

  lemma OptionReadsBack(entries: seq<(string, string)>, i: nat, o: Opt, d: Opt, below: seq<Option<string>>)
    requires Unambiguous(entries) && i < |entries|
    requires o.value < |o.values| && Different(o.values) && entries[i] == (o.key, o.values[o.value])
    requires d.key == o.key && d.values == o.values
    ensures d.key != [] && ReadLayers(d, below + [Some(Text(entries))]).value == o.value
  {
    hide GetValue, Locks, Text, Unambiguous, IndexFrom, ReadLayers;
    ReadBack(entries, i);
    IndexOfValue(o.values, o.value, 0);
    LastPresentWins(d, below + [Some(Text(entries))], |below|);
  }

  lemma NoColon(b: Bind)
    requires Labelled(b)
    ensures BeforeColon(Encode(b)) == Encode(b)
  {
    hide Button;
    var j := b.local + 1 + if b.mod then LOCAL_BUTTON_COUNT else 0;
    if j > 0 { ButtonIsPlain((j - 1) % LOCAL_BUTTON_COUNT); }
    assert ':' !in Label(j);
  }

  lemma BindingReadsBack(entries: seq<(string, string)>, i: nat, b: Bind, d: Bind, below: seq<Option<string>>,
                         control: bool)
    requires Unambiguous(entries) && i < |entries|
    requires GoodBind(b) && entries[i] == (BindKey(b.name), Encode(b)) && d.name == b.name
    ensures var r := ReadBindLayers(d, below + [Some(Text(entries))], control); r.local == b.local && r.mod == b.mod
  {
    hide GetValue, Text, Unambiguous, Decode, Encode, ReadBindLayers;
    ReadBack(entries, i);
    BindReadsBackIff(b);
    NoColon(b);
    LastPresentBinds(d, below + [Some(Text(entries))], control, |below|);
  }

  // where the lines of some settings stand in a file
  predicate OptLinesAt(e: seq<(string, string)>, at: nat, os: seq<Opt>) {
    && at + |os| <= |e|
    && forall i :: 0 <= i < |os| ==> os[i].value < |os[i].values| && e[at + i] == (os[i].key, os[i].values[os[i].value])
  }

  predicate BindLinesAt(e: seq<(string, string)>, at: nat, bs: seq<Bind>) {
    && at + |bs| <= |e|
    && forall i :: 0 <= i < |bs| ==> GoodBind(bs[i]) && e[at + i] == (BindKey(bs[i].name), Encode(bs[i]))
  }

  lemma EntriesAt(c: Settings, gamepad: Option<string>)
    requires InRange(c)
    ensures var e := Entries(c, gamepad);
            var core := |c.frontend|;
            var controls := core + |c.core| + |GamepadEntries(gamepad)|;
            && OptLinesAt(e, 0, c.frontend) && OptLinesAt(e, core, c.core)
            && BindLinesAt(e, controls, c.controls) && BindLinesAt(e, controls + |c.controls|, c.shortcuts)
  {
    hide Encode, OptEntries, BindEntries, GoodBind;
  }

  /** Reading the file over others gives every option of ds the index it has in os. */
  predicate OptionsRestored(os: seq<Opt>, ds: seq<Opt>, cfgs: seq<Option<string>>) {
    |os| == |ds| && forall i :: 0 <= i < |os| ==> ds[i].key != [] && ReadLayers(ds[i], cfgs).value == os[i].value
  }

  predicate BindsRestored(bs: seq<Bind>, ds: seq<Bind>, cfgs: seq<Option<string>>, control: bool) {
    && |bs| == |ds|
    && forall i :: 0 <= i < |bs| ==>
         var r := ReadBindLayers(ds[i], cfgs, control); r.local == bs[i].local && r.mod == bs[i].mod
  }

  lemma OptionsReadBack(entries: seq<(string, string)>, at: nat, os: seq<Opt>, ds: seq<Opt>,
                        below: seq<Option<string>>)
    requires Unambiguous(entries) && OptLinesAt(entries, at, os) && SameOptions(os, ds)
    requires forall o :: o in os ==> Different(o.values)
    ensures OptionsRestored(os, ds, below + [Some(Text(entries))])
  {
    hide Unambiguous, ReadLayers, Text, Different;
    var cfgs := below + [Some(Text(entries))];
    forall i | 0 <= i < |os| ensures ds[i].key != [] && ReadLayers(ds[i], cfgs).value == os[i].value {
      assert os[i] in os;
      OptionReadsBack(entries, at + i, os[i], ds[i], below);
    }
  }

  lemma BindsReadBack(entries: seq<(string, string)>, at: nat, bs: seq<Bind>, ds: seq<Bind>,
                      below: seq<Option<string>>, control: bool)
    requires Unambiguous(entries) && BindLinesAt(entries, at, bs) && SameBinds(bs, ds)
    ensures BindsRestored(bs, ds, below + [Some(Text(entries))], control)
  {
    hide Unambiguous, ReadBindLayers, Text, Encode;
    var cfgs := below + [Some(Text(entries))];
    forall i | 0 <= i < |bs|
      ensures var r := ReadBindLayers(ds[i], cfgs, control); r.local == bs[i].local && r.mod == bs[i].mod
    {
      BindingReadsBack(entries, at + i, bs[i], ds[i], below, control);
    }
  }

  lemma WritableHas(c: Settings, gamepad: Option<string>)
    requires Writable(c, gamepad)
    ensures InRange(c) && Unambiguous(Entries(c, gamepad))
    ensures (forall o :: o in c.frontend ==> Different(o.values)) && (forall o :: o in c.core ==> Different(o.values))
  {
  }

  lemma Stacked(a: Option<string>, b: Option<string>, c: Option<string>)
    ensures [a, b] + [c] == [a, b, c] && [b] + [c] == [b, c]
  {
  }

  /** What a session has written another reads back, over any system and default settings: every
      option index, binding and modifier, whatever they were before. */
  lemma RoundTrip(c: Settings, d: Settings, gamepad: Option<string>, system: Option<string>, defaults: Option<string>)
    requires Writable(c, gamepad)
    requires SameOptions(c.frontend, d.frontend) && SameOptions(c.core, d.core)
    requires SameBinds(c.controls, d.controls) && SameBinds(c.shortcuts, d.shortcuts)
    ensures var user := Some(Text(Entries(c, gamepad)));
            && OptionsRestored(c.frontend, d.frontend, [system, defaults, user])
            && OptionsRestored(c.core, d.core, [system, defaults, user])
            && BindsRestored(c.controls, d.controls, [defaults, user], true)
            && BindsRestored(c.shortcuts, d.shortcuts, [defaults, user], false)
  {
    hide *;
    WritableHas(c, gamepad);
    EntriesAt(c, gamepad);
    var entries := Entries(c, gamepad);
    var core := |c.frontend|;
    var controls := core + |c.core| + |GamepadEntries(gamepad)|;
    Stacked(system, defaults, Some(Text(entries)));
    OptionsReadBack(entries, 0, c.frontend, d.frontend, [system, defaults]);
    OptionsReadBack(entries, core, c.core, d.core, [system, defaults]);
    BindsReadBack(entries, controls, c.controls, d.controls, [defaults], true);
    BindsReadBack(entries, controls + |c.controls|, c.shortcuts, d.shortcuts, [defaults], false);
  }
}
