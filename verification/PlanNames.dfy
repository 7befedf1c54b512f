/** The names of workspace files, and why they differ. */
module PlanNames {
  import opened DosPath
  import opened Strings

  const TEMP_LIMIT: nat := 9999

  function Digit(n: nat): char
    requires n < 10
  {
    "0123456789"[n]
  }

  /** The workspace name with number `n`. */
  function TempName(n: nat, suffix: string): string
    requires n <= TEMP_LIMIT
  {
    "E:\\u" + [Digit(n / 1000), Digit(n / 100 % 10), Digit(n / 10 % 10), Digit(n % 10)] + "." + suffix
  }

  /** For example. */
  lemma TempNameSample()
    ensures TempName(1, "o") == "E:\\u0001.o" && TempName(9876, "asm") == "E:\\u9876.asm"
  {
  }

  /** Names with different numbers differ, whatever their suffixes. */
  lemma TempNamesDiffer(m: nat, n: nat, s: string, t: string)
    requires m <= TEMP_LIMIT && n <= TEMP_LIMIT && TempName(m, s) == TempName(n, t)
    ensures m == n && s == t
  {
    var a, b := TempName(m, s), TempName(n, t);
    DigitsDiffer(m / 1000, n / 1000);
    DigitsDiffer(m / 100 % 10, n / 100 % 10);
    DigitsDiffer(m / 10 % 10, n / 10 % 10);
    DigitsDiffer(m % 10, n % 10);
    assert a[4] == b[4] && a[5] == b[5] && a[6] == b[6] && a[7] == b[7];
    assert a[9..] == s && b[9..] == t;
    FourDigits(m);
    FourDigits(n);
  }

  lemma DigitsDiffer(m: nat, n: nat)
    requires m < 10 && n < 10
    ensures Digit(m) == Digit(n) ==> m == n
  {
    assert forall d :: 0 <= d < 10 ==> "0123456789"[d] as int == '0' as int + d;
  }

  lemma FourDigits(n: nat)
    requires n <= TEMP_LIMIT
    ensures n == 1000 * (n / 1000) + 100 * (n / 100 % 10) + 10 * (n / 10 % 10) + n % 10
  {
    assert n / 10 == 10 * (n / 100) + n / 10 % 10;
    assert n / 100 == 10 * (n / 1000) + n / 100 % 10;
  }

  lemma DigitsPrint(n: nat)
    requires n < 10
    ensures '0' <= Digit(n) <= '9'
  {
    assert forall d :: 0 <= d < 10 ==> "0123456789"[d] as int == '0' as int + d;
  }

  lemma StemOfTemp(n: nat, suffix: string)
    requires n <= TEMP_LIMIT && '.' !in suffix
    ensures
      var name := TempName(n, suffix);
      var stem := LastIndexOf(name, '.');
      && stem >= 0
      && name[..stem] + ".dbg" == TempName(n, "dbg") && name[..stem] + ".rsm" == TempName(n, "rsm")
  {
    var name := TempName(n, suffix);
    assert name[8] == '.' && name[9..] == suffix;
    assert forall j :: 8 < j < |name| ==> name[j] == suffix[j - 9];
    var stem := LastIndexOf(name, '.');
    assert stem == 8;
  }

  lemma TempIsShort(n: nat, suffix: string)
    requires n <= TEMP_LIMIT && |suffix| <= 3
    ensures |TempName(n, suffix)| < LIMIT
  {
  }

  /** A file name in the workspace, on guest drive E. */
  ghost predicate InWorkspace(name: string)
  {
    exists n: nat, suffix :: n <= TEMP_LIMIT && |suffix| <= 3 && '/' !in suffix && '\\' !in suffix && name == TempName(n, suffix)
  }

  lemma TempInWorkspace(n: nat, suffix: string)
    requires n <= TEMP_LIMIT && |suffix| <= 3 && '/' !in suffix && '\\' !in suffix
    ensures InWorkspace(TempName(n, suffix))
  {
    hide TempName;
  }

  // ---- Response files ----

  /** The name of a response file with a number above `from` and up to `to`. */
  ghost predicate FreshResponse(file: string, from: nat, to: nat)
  {
    exists n :: from < n <= to && n <= TEMP_LIMIT && file == TempName(n, "rsp")
  }

  lemma FreshWithin(file: string, from: nat, to: nat)
    requires FreshResponse(file, from, to) && to <= TEMP_LIMIT
    ensures FreshResponse(file, from, TEMP_LIMIT)
  {
    hide TempName;
    var n :| from < n <= to && n <= TEMP_LIMIT && file == TempName(n, "rsp");
    assert n <= TEMP_LIMIT;
  }

  lemma FreshStaysFresh(file: string, from: nat, before: nat, now: nat, newer: string, isNew: bool)
    requires FreshResponse(file, from, before) && before <= now <= TEMP_LIMIT
    requires isNew ==> now > before && newer == TempName(now, "rsp")
    ensures FreshResponse(file, from, now) && (isNew ==> file != newer)
  {
    hide TempName;
    var n :| from < n <= before && n <= TEMP_LIMIT && file == TempName(n, "rsp");
    assert n <= now;
    if isNew && file == newer {
      TempNamesDiffer(n, now, "rsp", "rsp");
    }
  }

  lemma NewIsFresh(file: string, from: nat, now: nat)
    requires from < now <= TEMP_LIMIT && file == TempName(now, "rsp")
    ensures FreshResponse(file, from, now)
  {
    hide TempName;
  }

  // ---- Lists of names ----

  ghost predicate NoRepeats<T>(items: seq<T>)
  {
    forall i, j :: 0 <= i < j < |items| ==> items[i] != items[j]
  }

  /** Workspace names with these numbers and suffixes. */
  ghost predicate NamedBy(names: seq<string>, keys: seq<(nat, string)>)
  {
    |names| == |keys| && forall i :: 0 <= i < |keys| ==> NamedAs(names[i], keys[i])
  }

  ghost predicate NamedAs(name: string, key: (nat, string))
  {
    key.0 <= TEMP_LIMIT && name == TempName(key.0, key.1)
  }

  lemma NamesDifferAsKeys(names: seq<string>, keys: seq<(nat, string)>)
    requires NamedBy(names, keys) && NoRepeats(keys)
    ensures NoRepeats(names)
  {
    hide TempName;
    forall i, j | 0 <= i < j < |names|
      ensures names[i] != names[j]
    {
      assert NamedAs(names[i], keys[i]) && NamedAs(names[j], keys[j]) && keys[i] != keys[j];
      if names[i] == names[j] {
        TempNamesDiffer(keys[i].0, keys[j].0, keys[i].1, keys[j].1);
      }
    }
  }

  lemma ResponseIsNew(names: seq<string>, keys: seq<(nat, string)>, file: string, n: nat)
    requires NamedBy(names, keys) && FreshResponse(file, n, TEMP_LIMIT)
    requires forall i :: 0 <= i < |keys| ==> keys[i].0 <= n
    ensures file !in names
  {
    hide TempName;
    var m :| n < m <= TEMP_LIMIT && m <= TEMP_LIMIT && file == TempName(m, "rsp");
    forall i | 0 <= i < |names|
      ensures names[i] != file
    {
      assert NamedAs(names[i], keys[i]);
      if names[i] == file {
        TempNamesDiffer(keys[i].0, m, keys[i].1, "rsp");
      }
    }
  }

  function CompileKeys(count: nat, suffix: string): seq<(nat, string)>
  {
    seq(count, j requires 0 <= j < count => (j + 1, suffix))
  }

  function LinkKeys(n: nat, target: string, debug: bool, root: bool): seq<(nat, string)>
  {
    [(n, target)] + (if debug then [(n, "dbg")] else []) + (if root then [(n, "rsm")] else [])
  }

  lemma NamedByConcat(a: seq<string>, b: seq<(nat, string)>, c: seq<string>, d: seq<(nat, string)>)
    requires NamedBy(a, b) && NamedBy(c, d)
    ensures NamedBy(a + c, b + d)
  {
    hide NamedAs;
  }

  lemma LinkNamed(n: nat, target: string, debug: bool, root: bool)
    requires n <= TEMP_LIMIT
    ensures NamedBy([TempName(n, target)] + (if debug then [TempName(n, "dbg")] else []) +
                      (if root then [TempName(n, "rsm")] else []),
                    LinkKeys(n, target, debug, root))
  {
    hide TempName;
  }

  lemma CompileKeysDiffer(count: nat, suffix: string)
    ensures var keys: seq<(nat, string)> := CompileKeys(count, suffix); NoRepeats(keys)
  {
  }

  lemma KeysDiffer(count: nat, suffix: string, target: string, debug: bool, root: bool)
    requires target != "dbg" && target != "rsm"
    ensures var keys: seq<(nat, string)> := CompileKeys(count, suffix) + LinkKeys(count + 1, target, debug, root);
      NoRepeats(keys) && forall i :: 0 <= i < |keys| ==> keys[i].0 <= count + 1
  {
    assert "dbg"[0] != "rsm"[0];
  }
}
