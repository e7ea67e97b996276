/** Boot parameters: boot/bootimage.c params2params() packs the monitor's environment, kernel/start.c get_value()
    looks a name up in it. */
module BootParams {
  const NIL := -1

  datatype Option<T> = None | Some(value: T)

  /** A variable as it is packed. */
  datatype Var = Var(name: string, value: string)

  /** An entry of the environment: E_VAR and E_DEV. */
  datatype Setting = Setting(name: string, value: string, isVar: bool, isDev: bool)

  /** A C string has no 0 in it. */
  predicate Clean(s: string) {
    '\0' !in s
  }

  predicate IsName(s: string) {
    Clean(s) && '=' !in s
  }

  predicate IsVar(v: Var) {
    IsName(v.name) && Clean(v.value)
  }

  function Text(v: Var): string {
    v.name + "=" + v.value + ['\0']
  }

  function Pack(vs: seq<Var>): string {
    if vs == [] then [] else Pack(vs[..|vs| - 1]) + Text(vs[|vs| - 1])
  }

  lemma PackMore(vs: seq<Var>, v: Var)
    ensures Pack(vs + [v]) == Pack(vs) + Text(v)
  {
    assert (vs + [v])[..|vs|] == vs;
  }

  lemma {:induction false} PackParts(vs: seq<Var>, k: nat)
    requires k <= |vs|
    ensures Pack(vs[..k]) <= Pack(vs)
    ensures k < |vs| ==> Pack(vs[..k + 1]) == Pack(vs[..k]) + Text(vs[k]) && Pack(vs[..k + 1]) <= Pack(vs)
    decreases |vs|
  {
    if k == |vs| {
      assert vs[..k] == vs;
    } else {
      var n := |vs| - 1;
      assert vs[..n][..k] == vs[..k];
      PackParts(vs[..n], k);
      if k == n {
        assert vs[..n + 1] == vs;
      } else {
        assert vs[..n][..k + 1] == vs[..k + 1];
      }
    }
  }

  // ---------------------------------------------------------------- params2params()

  function Digit(n: nat): (c: char)
    requires n < 10
    ensures c != '\0'
  {
    "0123456789"[n]
  }

  /** ul2a10() */
  function Decimal(n: nat): (s: string)
    ensures Clean(s) && s != []
  {
    if n < 10 then [Digit(n)] else Decimal(n / 10) + [Digit(n % 10)]
  }

  /** What is packed for one setting: a device is given by its number; None if there is no such device. */
  function Packed(e: Setting, dev: string -> int): Option<seq<Var>> {
    if !e.isVar then Some([])
    else if !e.isDev then Some([Var(e.name, e.value)])
    else if dev(e.value) == -1 then None
    else Some([Var(e.name, Decimal(dev(e.value) % 0x1_0000))])
  }

  function Vars(env: seq<Setting>, dev: string -> int): Option<seq<Var>> {
    if env == [] then Some([])
    else
      var before, last := Vars(env[..|env| - 1], dev), Packed(env[|env| - 1], dev);
      if before == None || last == None then None else Some(before.value + last.value)
  }

  /** Old kernels want two variables for the sizes of memory. */
  function MemoryVars(listed: bool, low: nat, extended: nat): seq<Var> {
    if listed then [] else [Var("memsize", Decimal(low / 1024)), Var("emssize", Decimal(extended / 1024))]
  }

  lemma VarsMore(env: seq<Setting>, i: nat, dev: string -> int)
    requires i < |env|
    ensures Vars(env[..i + 1], dev) == if Vars(env[..i], dev) == None || Packed(env[i], dev) == None then None
                                       else Some(Vars(env[..i], dev).value + Packed(env[i], dev).value)
  {
    assert env[..i + 1][..i] == env[..i];
  }

  lemma {:induction false} NoneStays(env: seq<Setting>, i: nat, dev: string -> int)
    requires i <= |env| && Vars(env[..i], dev) == None
    ensures Vars(env, dev) == None
    decreases |env|
  {
    if i == |env| {
      assert env[..i] == env;
    } else {
      assert env[..|env| - 1][..i] == env[..i];
      NoneStays(env[..|env| - 1], i, dev);
    }
  }

  /** The number that decimal digits stand for. */
  function ValueOf(s: string): int {
    if s == [] then 0 else 10 * ValueOf(s[..|s| - 1]) + (s[|s| - 1] as int - '0' as int)
  }

  /** What ul2a10() gives are digits, without a leading zero, and reading them gives the number. */
  lemma {:induction false} DecimalReads(n: nat)
    ensures ValueOf(Decimal(n)) == n
    ensures forall k :: 0 <= k < |Decimal(n)| ==> '0' <= Decimal(n)[k] <= '9'
    ensures n > 0 ==> Decimal(n)[0] != '0'
  {
    DigitIs(n % 10);
    if n < 10 {
      assert Decimal(n)[..0] == [];
    } else {
      DecimalReads(n / 10);
      assert Decimal(n)[..|Decimal(n)| - 1] == Decimal(n / 10);
    }
  }

  lemma DigitIs(n: nat)
    requires n < 10
    ensures Digit(n) as int == '0' as int + n
  {
    assert n in {0, 1, 2, 3, 4, 5, 6, 7, 8, 9};
  }

  /** How many of the first k settings are variables. */
  function Place(env: seq<Setting>, k: nat): nat
    requires k <= |env|
  {
    if k == 0 then 0 else Place(env, k - 1) + if env[k - 1].isVar then 1 else 0
  }

  /** Which variables are packed: each one that is set, in order, with its value; but a device with the digits of its number.
      Packing fails exactly if there is no such device. */
  lemma {:induction false} VarsExactly(env: seq<Setting>, dev: string -> int, n: nat)
    requires n <= |env|
    ensures Vars(env[..n], dev) == None <==> exists k :: 0 <= k < n && env[k].isVar && env[k].isDev && dev(env[k].value) == -1
    ensures Vars(env[..n], dev).Some? ==>
              var vs := Vars(env[..n], dev).value;
              |vs| == Place(env, n) && forall k :: 0 <= k < n && env[k].isVar ==> SetAt(env, dev, vs, k)
  {
    hide Decimal, ValueOf;
    if n == 0 {
      assert env[..n] == [];
    } else {
      VarsExactly(env, dev, n - 1);
      VarsMore(env, n - 1, dev);
      var before, e := Vars(env[..n - 1], dev), env[n - 1];
      if before.Some? && Packed(e, dev).Some? {
        if e.isDev { DecimalReads(dev(e.value) % 0x1_0000); }
        forall k | 0 <= k < n && env[k].isVar
          ensures SetAt(env, dev, before.value + Packed(e, dev).value, k)
        {
          if k < n - 1 { assert SetAt(env, dev, before.value, k); }
        }
      }
    }
  }

  ghost predicate SetAt(env: seq<Setting>, dev: string -> int, vs: seq<Var>, k: nat)
    requires k < |env|
  {
    var e, at := env[k], Place(env, k);
    && at < |vs| && vs[at].name == e.name
    && (!e.isDev ==> vs[at].value == e.value)
    && (e.isDev ==> ValueOf(vs[at].value) == dev(e.value) % 0x1_0000)
  }

  /** The sizes of memory that old kernels read, in kilobytes. */
  lemma MemoryVarsExactly(listed: bool, low: nat, extended: nat)
    ensures var vs := MemoryVars(listed, low, extended);
            if listed then vs == []
            else
              && |vs| == 2 && vs[0].name == "memsize" && vs[1].name == "emssize"
              && low - 1024 < 1024 * ValueOf(vs[0].value) <= low
              && extended - 1024 < 1024 * ValueOf(vs[1].value) <= extended
  {
    DecimalReads(low / 1024);
    DecimalReads(extended / 1024);
  }

  /** The packed text: name, equals sign, value and a 0, and the next variable right behind. */
  lemma PackExactly(vs: seq<Var>, k: nat)
    requires k < |vs|
    ensures var at, mid := |Pack(vs[..k])|, |Pack(vs[..k])| + |vs[k].name| + 1;
            var end := mid + |vs[k].value|;
            && end < |Pack(vs)| && |Pack(vs[..k + 1])| == end + 1
            && Pack(vs)[at..mid - 1] == vs[k].name && Pack(vs)[mid - 1] == '='
            && Pack(vs)[mid..end] == vs[k].value && Pack(vs)[end] == '\0'
  {
    hide Pack;
    PackParts(vs, k);
    var p, t := Pack(vs[..k]), Text(vs[k]);
    var rest := Pack(vs)[|p| + |t|..];
    assert Pack(vs) == p + t + rest;
    assert t == vs[k].name + ['='] + vs[k].value + ['\0'];
  }

  /** The params array so far: what has been packed is there as long as it has all fitted. */
  ghost predicate Filled(params: seq<char>, done: seq<Var>, i: nat) {
    i == |Pack(done)| && (i < |params| ==> params[..i] == Pack(done))
  }

  /** strcpy and strcat of one variable, if it still fits. */
  method PackOne(params: array<char>, i: nat, v: Var, ghost done: seq<Var>) returns (n: nat)
    requires Filled(params[..], done, i)
    modifies params
    ensures Filled(params[..], done + [v], n)
  {
    n := i + |v.name| + 1 + |v.value| + 1;
    PackMore(done, v);
    if n < params.Length { WriteAt(params, i, v.name + "=" + v.value + ['\0']); }
  }

  method WriteAt(params: array<char>, i: nat, text: string)
    requires i + |text| <= params.Length
    modifies params
    ensures params[..i + |text|] == old(params[..i]) + text
  {
    var k := 0;
    while k < |text|
      invariant 0 <= k <= |text|
      invariant forall a :: 0 <= a < i ==> params[a] == old(params[a])
      invariant forall a :: i <= a < i + k ==> params[a] == text[a - i]
    {
      params[i + k] := text[k];
      k := k + 1;
    }
  }

  /** params2params(): false if a device is unknown or there are too many parameters. */
  method Params2Params(env: seq<Setting>, dev: string -> int, listed: bool, low: nat, extended: nat, params: array<char>)
    returns (ok: bool)
    modifies params
    ensures ok <==> Vars(env, dev).Some? && |Pack(Vars(env, dev).value + MemoryVars(listed, low, extended))| < params.Length
    ensures ok ==> Pack(Vars(env, dev).value + MemoryVars(listed, low, extended)) + ['\0'] <= params[..]
  {
    hide Pack, Packed, Decimal, Filled;
    var i: nat, at: nat := 0, 0;
    ghost var done: seq<Var> := [];
    NothingPacked(params[..]);
    while at < |env|
      invariant 0 <= at <= |env| && Vars(env[..at], dev) == Some(done) && Filled(params[..], done, i)
    {
      var e := env[at];
      VarsMore(env, at, dev);
      if e.isVar {
        var value := e.value;
        if e.isDev {
          var d := dev(e.value);
          if d == -1 {
            PackedIs(e, dev);
            NoneStays(env, at + 1, dev);
            return false;
          }
          value := Decimal(d % 0x1_0000);
        }
        i := PackOne(params, i, Var(e.name, value), done);
        PackedIs(e, dev);
        done := done + [Var(e.name, value)];
      } else {
        PackedIs(e, dev);
        assert done + [] == done;
      }
      at := at + 1;
    }
    assert env[..|env|] == env;
    if !listed {
      ghost var vars := done;
      i := PackOne(params, i, Var("memsize", Decimal(low / 1024)), done);
      done := done + [Var("memsize", Decimal(low / 1024))];
      i := PackOne(params, i, Var("emssize", Decimal(extended / 1024)), done);
      done := done + [Var("emssize", Decimal(extended / 1024))];
      assert done == vars + MemoryVars(listed, low, extended);
    } else {
      assert done == done + MemoryVars(listed, low, extended);
    }
    FilledIs(params[..], done, i);
    if i >= params.Length { return false; }
    params[i] := '\0';
    return true;
  }

  lemma NothingPacked(params: seq<char>)
    ensures Filled(params, [], 0)
  {
  }

  lemma FilledIs(params: seq<char>, done: seq<Var>, i: nat)
    requires Filled(params, done, i)
    ensures i == |Pack(done)| && (i < |params| ==> params[..i] == Pack(done))
  {
  }

  lemma PackedIs(e: Setting, dev: string -> int)
    ensures Packed(e, dev) == if !e.isVar then Some([])
                              else if !e.isDev then Some([Var(e.name, e.value)])
                              else if dev(e.value) == -1 then None
                              else Some([Var(e.name, Decimal(dev(e.value) % 0x1_0000))])
  {
  }

  // ---------------------------------------------------------------- get_value()

  /** The value of the first variable of that name. */
  function Lookup(vs: seq<Var>, key: string): Option<string> {
    if vs == [] then None else if vs[0].name == key then Some(vs[0].value) else Lookup(vs[1..], key)
  }

  lemma {:induction false} LookupAt(vs: seq<Var>, key: string, k: nat)
    requires k <= |vs| && forall i :: 0 <= i < k ==> vs[i].name != key
    ensures k == |vs| ==> Lookup(vs, key) == None
    ensures k < |vs| && vs[k].name == key ==> Lookup(vs, key) == Some(vs[k].value)
  {
    if k > 0 {
      LookupAt(vs[1..], key, k - 1);
    }
  }

  /** The C string at a place. */
  predicate StringAt(p: string, at: nat, s: string) {
    at + |s| < |p| && p[at..at + |s|] == s && p[at + |s|] == '\0'
  }

  /** Where a name ends is at the '=' of its variable, and nowhere else. */
  lemma NameEnds(v: Var, key: string, j: nat)
    requires IsVar(v) && IsName(key) && j <= |key| && j < |Text(v)| && Text(v)[..j] == key[..j]
    ensures j == |key| && Text(v)[j] == '=' <==> key == v.name && j == |v.name|
  {
    var t := Text(v);
    assert t[|v.name|] == '=' && t[..|v.name|] == v.name;
    forall i | 0 <= i < |v.name|
      ensures t[i] != '='
    {
      assert t[i] == v.name[i] && v.name[i] in v.name;
    }
    forall i | 0 <= i < j
      ensures t[i] != '='
    {
      assert t[i] == t[..j][i] == key[i] && key[i] in key;
    }
    if j == |key| && t[j] == '=' {
      assert j == |v.name|;
      assert key[..j] == key;
    }
  }

  /** The entry at envp is compared with the name: how far they agree. */
  method Compare(p: string, key: string, envp: nat, ghost v: Var) returns (namep: nat)
    requires IsVar(v) && IsName(key) && envp + |Text(v)| <= |p| && p[envp..envp + |Text(v)|] == Text(v)
    ensures namep <= |key| && namep < |Text(v)|
    ensures namep == |key| && p[envp + namep] == '=' <==> v.name == key
    ensures namep == |key| && p[envp + namep] == '=' ==> namep == |v.name|
  {
    hide Text;
    TextIs(v);
    ghost var text := Text(v);
    namep := 0;
    while namep < |key| && key[namep] == p[envp + namep]
      invariant 0 <= namep <= |key| && namep < |text| && text[..namep] == key[..namep]
    {
      assert p[envp + namep] == p[envp..envp + |text|][namep] && key[namep] in key;
      namep := namep + 1;
    }
    assert p[envp + namep] == p[envp..envp + |text|][namep];
    NameEnds(v, key, namep);
    if v.name == key { NameIsPrefix(v, key, namep); }
  }

  /** One turn of get_value's loop: the value if the entry has that name, else the place behind the entry. */
  method TryEntry(p: string, key: string, envp: nat, ghost v: Var) returns (found: bool, to: nat)
    requires IsVar(v) && IsName(key) && envp + |Text(v)| <= |p| && p[envp..envp + |Text(v)|] == Text(v)
    ensures found <==> v.name == key
    ensures found ==> StringAt(p, to, v.value)
    ensures !found ==> to == envp + |Text(v)|
  {
    hide Text, IsVar, IsName, StringAt;
    var namep := Compare(p, key, envp, v);
    found := namep == |key| && p[envp + namep] == '=';
    if found {
      ValueAt(v, p, envp);
      to := envp + namep + 1;
    } else {
      StringEnds(v, p, envp);
      to := SkipString(p, envp + namep, envp + |Text(v)|);
    }
  }

  /** get_value(): NIL, or the place of the value.  The parameters are packed variables and an empty string. */
  method GetValue(p: string, key: string, ghost vs: seq<Var>) returns (at: int)
    requires Pack(vs) + ['\0'] <= p && IsName(key) && forall i :: 0 <= i < |vs| ==> IsVar(vs[i])
    ensures match Lookup(vs, key) case None => at == NIL case Some(value) => at >= 0 && StringAt(p, at, value)
  {
    hide Pack, Text, Lookup, IsVar, IsName, StringAt;
    var envp := 0;
    ghost var k := 0;
    assert vs[..0] == [];
    PackEmpty();
    PackEnds(vs, p, 0);
    while p[envp] != '\0'
      invariant 0 <= k <= |vs| && envp == |Pack(vs[..k])| < |p|
      invariant forall i :: 0 <= i < k ==> vs[i].name != key
      invariant p[envp] == '\0' <==> k == |vs|
      decreases |vs| - k
    {
      NextEntry(vs, p, k);
      var found;
      found, envp := TryEntry(p, key, envp, vs[k]);
      LookupAt(vs, key, k);
      if found { return envp; }
      k := k + 1;
      PackEnds(vs, p, k);
    }
    LookupAt(vs, key, k);
    return NIL;
  }

  lemma NextEntry(vs: seq<Var>, p: string, k: nat)
    requires Pack(vs) + ['\0'] <= p && k < |vs|
    ensures var start, n := |Pack(vs[..k])|, |Text(vs[k])|;
            start + n <= |p| && p[start..start + n] == Text(vs[k]) && |Pack(vs[..k + 1])| == start + n
  {
    hide Pack, Text;
    PackParts(vs, k);
    EntryAt(vs, p, k);
  }

  lemma StringEnds(v: Var, p: string, start: nat)
    requires IsVar(v) && start + |Text(v)| <= |p| && p[start..start + |Text(v)|] == Text(v)
    ensures |Text(v)| > 0 && p[start + |Text(v)| - 1] == '\0'
    ensures forall i :: start <= i < start + |Text(v)| - 1 ==> p[i] != '\0'
  {
    hide Text;
    TextIs(v);
    var t := Text(v);
    forall i | start <= i < start + |t|
      ensures p[i] == t[i - start]
    {
      assert p[start..start + |t|][i - start] == p[i];
    }
  }

  /** Past the 0 that ends at end. */
  method SkipString(p: string, from: nat, ghost end: nat) returns (to: nat)
    requires from < end <= |p| && p[end - 1] == '\0' && forall i :: from <= i < end - 1 ==> p[i] != '\0'
    ensures to == end
  {
    to := from;
    while p[to] != '\0'
      invariant from <= to < end
      decreases end - to
    {
      to := to + 1;
    }
    to := to + 1;
  }

  lemma PackEmpty()
    ensures Pack([]) == []
  {
  }

  lemma TextIs(v: Var)
    requires IsVar(v)
    ensures |Text(v)| > 0 && forall i :: 0 <= i < |Text(v)| ==> (Text(v)[i] == '\0' <==> i == |Text(v)| - 1)
  {
    var t := Text(v);
    forall i | 0 <= i < |t| - 1
      ensures t[i] != '\0'
    {
      if i < |v.name| { assert t[i] in v.name; } else if i > |v.name| { assert t[i] == v.value[i - |v.name| - 1] && t[i] in v.value; }
    }
  }

  lemma EntryAt(vs: seq<Var>, p: string, k: nat)
    requires Pack(vs) + ['\0'] <= p && k < |vs|
    ensures var start := |Pack(vs[..k])|;
            start + |Text(vs[k])| < |p| && p[start..start + |Text(vs[k])|] == Text(vs[k])
            && forall i :: 0 <= i < |Text(vs[k])| ==> p[start + i] == Text(vs[k])[i]
  {
    PackParts(vs, k);
    var start, t := |Pack(vs[..k])|, Text(vs[k]);
    assert p[..|Pack(vs)|] == Pack(vs);
    assert p[..start + |t|] == Pack(vs[..k + 1]);
    assert p[start..start + |t|] == p[..start + |t|][start..];
    forall i | 0 <= i < |t|
      ensures p[start + i] == t[i]
    {
      assert p[start..start + |t|][i] == t[i];
    }
  }

  /** Behind entry k comes the next one, which is not empty, or the empty string. */
  lemma PackEnds(vs: seq<Var>, p: string, k: nat)
    requires Pack(vs) + ['\0'] <= p && k <= |vs| && forall i :: 0 <= i < |vs| ==> IsVar(vs[i])
    ensures |Pack(vs[..k])| < |p| && (p[|Pack(vs[..k])|] == '\0' <==> k == |vs|)
  {
    if k == |vs| {
      assert vs[..k] == vs;
      assert p[|Pack(vs)|] == (Pack(vs) + ['\0'])[|Pack(vs)|];
    } else {
      EntryAt(vs, p, k);
      assert IsVar(vs[k]);
      TextIs(vs[k]);
      assert |Text(vs[k])| >= 2;
      assert p[|Pack(vs[..k])| + 0] == Text(vs[k])[0];
    }
  }

  lemma ValueAt(v: Var, p: string, start: nat)
    requires start + |Text(v)| <= |p| && p[start..start + |Text(v)|] == Text(v)
    ensures StringAt(p, start + |v.name| + 1, v.value)
  {
    var t := Text(v);
    assert t[|v.name| + 1..|t| - 1] == v.value && t[|t| - 1] == '\0';
    assert p[start + |v.name| + 1..start + |t| - 1] == t[|v.name| + 1..|t| - 1];
    assert p[start + |t| - 1] == p[start..start + |t|][|t| - 1];
  }

  /** If the names are equal the comparison runs to the end of the name. */
  lemma NameIsPrefix(v: Var, key: string, j: nat)
    requires key == v.name && j <= |key| && j < |Text(v)| && (j < |key| ==> key[j] != Text(v)[j])
    ensures j == |key| && Text(v)[j] == '='
  {
    assert Text(v)[..|key|] == key;
    assert forall i :: 0 <= i < |key| ==> Text(v)[i] == Text(v)[..|key|][i];
  }

  /** Main result: whatever the environment, once it is packed the kernel finds for every name exactly the value
      of the first variable of that name, and nothing for any other name. */
  method PackThenLookUp(env: seq<Setting>, dev: string -> int, listed: bool, low: nat, extended: nat, psize: nat, key: string)
    returns (ok: bool, params: string, at: int)
    requires IsName(key) && forall i :: 0 <= i < |env| ==> IsName(env[i].name) && Clean(env[i].value)
    ensures ok ==> Vars(env, dev).Some?
                   && match Lookup(Vars(env, dev).value + MemoryVars(listed, low, extended), key)
                      case None => at == NIL
                      case Some(value) => at >= 0 && StringAt(params, at, value)
  {
    hide Pack, Lookup, Decimal;
    var block := new char[psize](_ => ' ');
    ok := Params2Params(env, dev, listed, low, extended, block);
    params, at := block[..], NIL;
    if ok {
      ghost var vs := Vars(env, dev).value + MemoryVars(listed, low, extended);
      VarsAreVars(env, dev);
      MemoryVarsAreVars(listed, low, extended);
      at := GetValue(params, key, vs);
    }
  }

  lemma {:induction false} VarsAreVars(env: seq<Setting>, dev: string -> int)
    requires Vars(env, dev).Some? && forall i :: 0 <= i < |env| ==> IsName(env[i].name) && Clean(env[i].value)
    ensures forall i :: 0 <= i < |Vars(env, dev).value| ==> IsVar(Vars(env, dev).value[i])
  {
    if env != [] {
      VarsAreVars(env[..|env| - 1], dev);
    }
  }

  lemma MemoryVarsAreVars(listed: bool, low: nat, extended: nat)
    ensures forall i :: 0 <= i < |MemoryVars(listed, low, extended)| ==> IsVar(MemoryVars(listed, low, extended)[i])
  {
  }
}
