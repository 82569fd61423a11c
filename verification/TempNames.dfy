/** Temp file names of the crash-safe write: how they are made and how the orphan sweep reads the
    writer's process id back (jvspatial/db/_atomic.py). */
module TempNames {
  datatype Option<+T> = None | Some(value: T)

  const SUFFIX := ".jvtmp"

  predicate EndsWith(s: string, end: string) {
    |end| <= |s| && s[|s| - |end|..] == end
  }

  // ---------- decimal numbers ----------

  const DIGITS := "0123456789"

  /** `str(n)`. */
  function Decimal(n: nat): (s: string)
    ensures s != ""
  {
    if n < 10 then [DIGITS[n]] else Decimal(n / 10) + [DIGITS[n % 10]]
  }

  function DigitValue(c: char): Option<nat> {
    if '0' <= c <= '9' then Some((c as int) - ('0' as int)) else None
  }

  /** `int(s)` for a string of digits; `None` where `isdigit()` is false. */
  function Parse(s: string): Option<nat> {
    if s == "" then None
    else if |s| == 1 then DigitValue(s[0])
    else
      match (Parse(s[..|s| - 1]), DigitValue(s[|s| - 1]))
      case (Some(high), Some(d)) => Some(10 * high + d)
      case _ => None
  }

  lemma {:induction false} DecimalRead(n: nat)
    ensures Parse(Decimal(n)) == Some(n) && '.' !in Decimal(n)
  {
    if n >= 10 {
      DecimalRead(n / 10);
      var s := Decimal(n);
      assert s[..|s| - 1] == Decimal(n / 10) && s[|s| - 1] == DIGITS[n % 10];
    }
  }

  // ---------- names ----------

  /** `secrets.token_hex`: no dot in it. */
  predicate IsToken(token: string) {
    token != "" && '.' !in token
  }

  /** `_make_temp_path`. */
  function MakeTemp(target: string, pid: nat, token: string): string {
    target + "." + Decimal(pid) + "." + token + SUFFIX
  }

  /** The text before and after the last dot. */
  function SplitLast(s: string): Option<(string, string)> {
    if s == "" then None
    else if s[|s| - 1] == '.' then Some((s[..|s| - 1], ""))
    else
      match SplitLast(s[..|s| - 1])
      case None => None
      case Some((a, b)) => Some((a, b + [s[|s| - 1]]))
  }

  lemma {:induction false} SplitAtDot(a: string, b: string)
    requires '.' !in b
    ensures SplitLast(a + "." + b) == Some((a, b))
    decreases |b|
  {
    var s := a + "." + b;
    if b == "" {
      assert s[|s| - 1] == '.' && s[..|s| - 1] == a;
    } else {
      var n := |b| - 1;
      assert s[|s| - 1] == b[n] && s[..|s| - 1] == a + "." + b[..n];
      SplitAtDot(a, b[..n]);
      assert b == b[..n] + [b[n]];
    }
  }

  /** The second of the four parts of `name.rsplit(".", 3)`, if there are four. */
  function PidPart(name: string): Option<string> {
    match SplitLast(name)
    case None => None
    case Some((a, _)) =>
      match SplitLast(a)
      case None => None
      case Some((b, _)) =>
        match SplitLast(b)
        case None => None
        case Some((_, pid)) => Some(pid)
  }

  /** The sweep of process `pid` passes the file over. */
  predicate OwnedBy(name: string, pid: nat) {
    PidPart(name).Some? && Parse(PidPart(name).value) == Some(pid)
  }

  /** The process id read from a temp name is its writer's, whatever the target is called, so a sweep
      leaves exactly its own process's files alone. */
  lemma OwnerIsRecovered(target: string, pid: nat, token: string, sweeper: nat)
    requires IsToken(token)
    ensures EndsWith(MakeTemp(target, pid, token), SUFFIX)
    ensures OwnedBy(MakeTemp(target, pid, token), sweeper) <==> sweeper == pid
  {
    var name := MakeTemp(target, pid, token);
    DecimalRead(pid);
    assert name == (target + "." + Decimal(pid) + "." + token) + "." + "jvtmp";
    SplitAtDot(target + "." + Decimal(pid) + "." + token, "jvtmp");
    SplitAtDot(target + "." + Decimal(pid), token);
    SplitAtDot(target, Decimal(pid));
  }

  // ---------- what the sweep reads from any name ----------

  lemma EndsIff(s: string, end: string)
    ensures EndsWith(s, end) <==> exists a :: s == a + end
  {
    if EndsWith(s, end) { assert s == s[..|s| - |end|] + end; }
  }

  lemma {:induction false} SplitLastIs(s: string, a: string, b: string)
    ensures SplitLast(s) == Some((a, b)) <==> s == a + "." + b && '.' !in b
    decreases |s|
  {
    if s == a + "." + b && '.' !in b { SplitAtDot(a, b); }
    if SplitLast(s) == Some((a, b)) { SplitJoins(s); }
  }

  lemma {:induction false} SplitJoins(s: string)
    requires SplitLast(s).Some?
    ensures s == SplitLast(s).value.0 + "." + SplitLast(s).value.1 && '.' !in SplitLast(s).value.1
  {
    var n := |s| - 1;
    assert s == s[..n] + [s[n]];
    if s[n] != '.' { SplitJoins(s[..n]); }
  }

  /** `p` stands between the third dot from the end and the second. */
  predicate ThirdFromEnd(name: string, a: string, p: string, t: string, e: string) {
    name == a + "." + p + "." + t + "." + e && '.' !in p && '.' !in t && '.' !in e
  }

  lemma PidPartIs(name: string, p: string)
    ensures PidPart(name) == Some(p) <==> exists a, t, e :: ThirdFromEnd(name, a, p, t, e)
  {
    if a, t, e :| ThirdFromEnd(name, a, p, t, e) {
      SplitAtDot(a + "." + p + "." + t, e);
      SplitAtDot(a + "." + p, t);
      SplitAtDot(a, p);
    }
    if PidPart(name) == Some(p) {
      var (x, e) := SplitLast(name).value;
      var (y, t) := SplitLast(x).value;
      var (a, _) := SplitLast(y).value;
      SplitJoins(name);
      SplitJoins(x);
      SplitJoins(y);
      assert ThirdFromEnd(name, a, p, t, e);
    }
  }

  predicate AllDigits(s: string) {
    s != "" && forall k | 0 <= k < |s| :: s[k] in "0123456789"
  }

  lemma DigitIs(c: char)
    ensures DigitValue(c).Some? <==> c in "0123456789"
    ensures DigitValue(c).Some? ==> DigitValue(c).value < 10 && DIGITS[DigitValue(c).value] == c
  {
    if '0' <= c <= '9' {
      var d := (c as int) - ('0' as int);
      assert DIGITS[d] == c;
    }
  }

  lemma {:induction false} ParseIs(s: string)
    ensures Parse(s).Some? <==> AllDigits(s)
  {
    if s != "" {
      var n := |s| - 1;
      DigitIs(s[n]);
      if n > 0 { ParseIs(s[..n]); }
    }
  }

  lemma {:induction false} LeadingZero(s: string)
    requires AllDigits(s)
    ensures Parse("0" + s) == Parse(s)
  {
    var n := |s| - 1;
    ParseIs(s);
    assert ("0" + s)[..n + 1] == "0" + s[..n] && ("0" + s)[n + 1] == s[n];
    if n > 0 {
      LeadingZero(s[..n]);
    } else {
      assert s[..0] == "" && "0" + "" == "0" && Parse("0") == Some(0);
    }
  }

  /** A file is taken for one's own exactly if the third part from the end of its name is the own process id in
      digits, leading zeros aside. */
  lemma OwnedIff(name: string, pid: nat)
    ensures OwnedBy(name, pid) <==> exists a, p, t, e :: ThirdFromEnd(name, a, p, t, e) && AllDigits(p) && Parse(p) == Some(pid)
  {
    if OwnedBy(name, pid) {
      PidPartIs(name, PidPart(name).value);
      ParseIs(PidPart(name).value);
    }
    if a, p, t, e :| ThirdFromEnd(name, a, p, t, e) && AllDigits(p) && Parse(p) == Some(pid) { PidPartIs(name, p); }
  }

  // ---------- the sweep ----------

  /** A directory tree to sweep; some files cannot be removed. */
  class Directory {
    var files: set<string>
    const locked: set<string>

    constructor (files: set<string>, locked: set<string>)
      ensures this.files == files && this.locked == locked
    {
      this.files, this.locked := files, locked;
    }

    method Unlink(name: string) returns (ok: bool)
      modifies this
      ensures ok <==> name in old(files) && name !in locked
      ensures files == (if ok then old(files) - {name} else old(files))
      ensures |files| == |old(files)| - if ok then 1 else 0
    {
      ok := name in files && name !in locked;
      if ok {
        files := files - {name};
      }
    }

    /** What a sweep by process `pid` may take away. */
    predicate Orphan(name: string, pid: nat) {
      EndsWith(name, SUFFIX) && !OwnedBy(name, pid) && name !in locked
    }

    function Orphans(listing: seq<string>, pid: nat): set<string> {
      set name | name in listing && Orphan(name, pid)
    }

    lemma OrphansSnoc(all: set<string>, listing: seq<string>, i: nat, pid: nat)
      requires i < |listing|
      ensures all - Orphans(listing[..i + 1], pid) ==
              all - Orphans(listing[..i], pid) - if Orphan(listing[i], pid) then {listing[i]} else {}
    {
    }

    /** One listed file: skipped if it may belong to this process, else removed if that works. */
    method Reap(name: string, pid: nat) returns (reaped: bool)
      modifies this
      ensures files == old(files) - if Orphan(name, pid) then {name} else {}
      ensures |files| == |old(files)| - if reaped then 1 else 0
    {
      reaped := false;
      if EndsWith(name, SUFFIX) {
        var pidPart := PidPart(name);
        if pidPart.Some? && Parse(pidPart.value).Some? && Parse(pidPart.value).value == pid {
          return;
        }
        reaped := Unlink(name);
      }
    }

    /** `cleanup_orphan_tmp_files` over what `rglob` listed, which may be out of date: exactly the listed
        temp files of other processes go, each counted once. */
    method Cleanup(listing: seq<string>, pid: nat, serverless: bool) returns (removed: nat)
      modifies this
      ensures files == old(files) - if serverless then {} else Orphans(listing, pid)
      ensures forall name | name in old(files) ::
                name !in files <==>
                !serverless && name in listing && EndsWith(name, ".jvtmp") && !OwnedBy(name, pid) && name !in locked
      ensures removed == |old(files)| - |files|
    {
      removed := 0;
      if serverless {
        return;
      }
      for i := 0 to |listing|
        invariant files == old(files) - Orphans(listing[..i], pid)
        invariant removed == |old(files)| - |files|
      {
        OrphansSnoc(old(files), listing, i, pid);
        var reaped := Reap(listing[i], pid);
        removed := removed + if reaped then 1 else 0;
      }
      assert listing[..|listing|] == listing;
    }
  }
}
