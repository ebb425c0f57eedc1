/**
 * Configuration read from the environment: which required variables are missing,
 * the error raised for them, and `COURSE_LIST` split on commas (with the trimming and
 * skipping its consumer applies to each entry).
 */
module Config {
  import opened Wrappers

  /** The process environment after the `.env` file has been loaded. */
  type Env = map<string, string>

  const RequiredVars: seq<string> := ["API_URL", "API_KEY", "COURSE_LIST"]
  const MissingPrefix: string := "Missing required environment variables: "

  /** `os.getenv(name)`: `None` when the variable is unset. */
  function GetEnv(env: Env, name: string): (r: Option<string>)
    ensures r.Some? <==> name in env
    ensures r.Some? ==> r.value == env[name]
  {
    if name in env then Some(env[name]) else None
  }

  /** `not os.getenv(name)`: unset, or set to the empty string. */
  predicate IsMissing(env: Env, name: string) {
    GetEnv(env, name) == None || GetEnv(env, name) == Some("")
  }

  /** The names among `names` that are missing, in the order of `names`. */
  function MissingOf(env: Env, names: seq<string>): (r: seq<string>)
    ensures |r| <= |names|
    ensures forall v :: v in r <==> v in names && IsMissing(env, v)
  {
    if names == [] then []
    else (if IsMissing(env, names[0]) then [names[0]] else []) + MissingOf(env, names[1..])
  }

  /** The list comprehension of `_validate_env_vars`. */
  function MissingVars(env: Env): seq<string> {
    MissingOf(env, RequiredVars)
  }

  /** Missing names are reported in the fixed order API_URL, API_KEY, COURSE_LIST. */
  lemma MissingVarsOrder(env: Env)
    ensures MissingVars(env)
         == (if IsMissing(env, "API_URL") then ["API_URL"] else [])
          + (if IsMissing(env, "API_KEY") then ["API_KEY"] else [])
          + (if IsMissing(env, "COURSE_LIST") then ["COURSE_LIST"] else [])
  {
    var n := RequiredVars;
    assert n[1..] == ["API_KEY", "COURSE_LIST"];
    assert n[1..][1..] == ["COURSE_LIST"];
    assert n[1..][1..][1..] == [];
    assert MissingOf(env, ["COURSE_LIST"]) == (if IsMissing(env, "COURSE_LIST") then ["COURSE_LIST"] else []);
    assert MissingOf(env, ["API_KEY", "COURSE_LIST"])
        == (if IsMissing(env, "API_KEY") then ["API_KEY"] else []) + MissingOf(env, ["COURSE_LIST"]);
  }

  /** `', '.join(parts)`, or `sep.join(parts)` for any separator. */
  function Join(parts: seq<string>, sep: string): string {
    if parts == [] then ""
    else if |parts| == 1 then parts[0]
    else parts[0] + sep + Join(parts[1..], sep)
  }

  /** `_validate_env_vars`: ValueError naming the missing variables, if there are any. */
  function ValidateEnv(env: Env): (r: Result<(), string>)
    ensures r.Ok? <==> forall v :: v in RequiredVars ==> v in env && env[v] != ""
    ensures r.Err? ==> r.error == MissingPrefix + Join(MissingVars(env), ", ")
  {
    var missing := MissingVars(env);
    assert missing != [] ==> missing[0] in missing;
    if missing != [] then Err(MissingPrefix + Join(missing, ", ")) else Ok(())
  }

  /** `s.split(sep)`: the pieces between separators, kept verbatim, empty ones included. */
  function Split(s: string, sep: char): (r: seq<string>)
    ensures |r| >= 1
    ensures forall i :: 0 <= i < |r| ==> sep !in r[i]
  {
    if s == [] then [""]
    else
      var rest := Split(s[1..], sep);
      if s[0] == sep then [""] + rest else [[s[0]] + rest[0]] + rest[1..]
  }

  /** Joining the pieces with the separator gives back the string. */
  lemma {:induction false} JoinSplit(s: string, sep: char)
    ensures Join(Split(s, sep), [sep]) == s
  {
    if s != [] {
      JoinSplit(s[1..], sep);
      var rest := Split(s[1..], sep);
      if s[0] != sep && |rest| > 1 {
        assert ([[s[0]] + rest[0]] + rest[1..])[1..] == rest[1..];
      }
    }
  }

  /** Splitting a join of separator-free pieces gives back the pieces. */
  lemma {:induction false} SplitJoin(parts: seq<string>, sep: char)
    requires |parts| >= 1 && forall i :: 0 <= i < |parts| ==> sep !in parts[i]
    ensures Split(Join(parts, [sep]), sep) == parts
  {
    if |parts| == 1 {
      SplitPiece(parts[0], [], sep);
    } else {
      SplitJoin(parts[1..], sep);
      SplitPiece(parts[0], Join(parts[1..], [sep]), sep);
      assert [parts[0]] + parts[1..] == parts;
    }
  }

  /** Splitting `p + [sep] + t` (or just `p`) for a separator-free `p`. */
  lemma {:induction false} SplitPiece(p: string, t: string, sep: char)
    requires sep !in p
    ensures Split(p, sep) == [p]
    ensures Split(p + [sep] + t, sep) == [p] + Split(t, sep)
  {
    if p == [] {
      assert [sep] + t == p + [sep] + t;
      assert ([sep] + t)[1..] == t;
    } else {
      SplitPiece(p[1..], t, sep);
      assert [p[0]] + p[1..] == p;
      assert (p + [sep] + t)[0] == p[0];
      assert (p + [sep] + t)[1..] == p[1..] + [sep] + t;
    }
  }

  /** There is one piece more than there are separators. */
  lemma {:induction false} SplitCount(s: string, sep: char)
    ensures |Split(s, sep)| == multiset(s)[sep] + 1
  {
    if s != [] {
      SplitCount(s[1..], sep);
      assert s == [s[0]] + s[1..];
    }
  }

  /** `Config.course_list`: `os.getenv("COURSE_LIST", "").split(",")`. */
  function CourseList(env: Env): (r: seq<string>)
    ensures Join(r, ",") == (if "COURSE_LIST" in env then env["COURSE_LIST"] else "")
    ensures |r| >= 1 && forall i :: 0 <= i < |r| ==> ',' !in r[i]
  {
    var raw := if "COURSE_LIST" in env then env["COURSE_LIST"] else "";
    JoinSplit(raw, ',');
    Split(raw, ',')
  }

  // ---------------------------------------------------------------------------
  // The consumer's rule for each entry: `course_id.strip()`, skipped when empty
  // ---------------------------------------------------------------------------

  /** The characters Python's `str.strip()` removes: those for which `str.isspace()` holds. */
  predicate IsSpace(c: char) {
    || ('\t' <= c <= '\r') || ('\U{1C}' <= c <= '\U{1F}') || c == ' '
    || c == '\U{85}' || c == '\U{A0}' || c == '\U{1680}' || ('\U{2000}' <= c <= '\U{200A}')
    || c == '\U{2028}' || c == '\U{2029}' || c == '\U{202F}' || c == '\U{205F}' || c == '\U{3000}'
  }

  predicate AllSpace(s: string) {
    forall i :: 0 <= i < |s| ==> IsSpace(s[i])
  }

  /** `s.lstrip()`. */
  function TrimLeft(s: string): string {
    if s != [] && IsSpace(s[0]) then TrimLeft(s[1..]) else s
  }

  /** `s.rstrip()`. */
  function TrimRight(s: string): string {
    if s != [] && IsSpace(s[|s| - 1]) then TrimRight(s[..|s| - 1]) else s
  }

  /** `lstrip` removes a whitespace prefix, and what remains does not start with whitespace. */
  lemma {:induction false} TrimLeftSpec(s: string)
    ensures |TrimLeft(s)| <= |s| && TrimLeft(s) == s[|s| - |TrimLeft(s)|..]
    ensures AllSpace(s[..|s| - |TrimLeft(s)|])
    ensures TrimLeft(s) == [] || !IsSpace(TrimLeft(s)[0])
  {
    if s != [] && IsSpace(s[0]) {
      TrimLeftSpec(s[1..]);
      var n := |s| - |TrimLeft(s)|;
      assert s[..n] == [s[0]] + s[1..][..n - 1];
    }
  }

  /** `rstrip` removes a whitespace suffix, and what remains does not end with whitespace. */
  lemma {:induction false} TrimRightSpec(s: string)
    ensures |TrimRight(s)| <= |s| && TrimRight(s) == s[..|TrimRight(s)|]
    ensures AllSpace(s[|TrimRight(s)|..])
    ensures TrimRight(s) == [] || !IsSpace(TrimRight(s)[|TrimRight(s)| - 1])
  {
    if s != [] && IsSpace(s[|s| - 1]) {
      var p := s[..|s| - 1];
      TrimRightSpec(p);
      var n := |TrimRight(s)|;
      assert s[n..] == p[n..] + [s[|s| - 1]];
    }
  }

  /** Trimming the left reaches the empty string exactly when every character is whitespace. */
  lemma TrimLeftEmpty(s: string)
    ensures TrimLeft(s) == [] <==> AllSpace(s)
  {
    TrimLeftSpec(s);
    var l := TrimLeft(s);
    if l == [] {
      assert s[..|s|] == s;
    } else {
      assert s[|s| - |l|] == l[0];
    }
  }

  /** `s.strip()`: what is left once leading and trailing whitespace are removed. */
  function Strip(s: string): (r: string)
    ensures |r| <= |s|
  {
    TrimLeftSpec(s);
    TrimRightSpec(TrimLeft(s));
    TrimRight(TrimLeft(s))
  }

  /** The strip has no whitespace at either end, and is empty exactly when `s` is all whitespace. */
  lemma StripSpec(s: string)
    ensures Strip(s) == [] || (!IsSpace(Strip(s)[0]) && !IsSpace(Strip(s)[|Strip(s)| - 1]))
    ensures Strip(s) == [] <==> AllSpace(s)
  {
    var l := TrimLeft(s);
    TrimLeftSpec(s);
    TrimLeftEmpty(s);
    var r := TrimRight(l);
    TrimRightSpec(l);
    assert r != [] ==> r[0] == l[0];
  }

  /** The course ids `load_assignments` fetches: each entry stripped, blank entries skipped, in order. */
  function CourseIds(entries: seq<string>): (r: seq<string>)
    ensures |r| <= |entries|
    ensures forall i :: 0 <= i < |r| ==> r[i] != ""
  {
    if entries == [] then []
    else
      var id := Strip(entries[0]);
      if id == "" then CourseIds(entries[1..]) else [id] + CourseIds(entries[1..])
  }

  /** An id is fetched exactly when some entry strips to it and it is not blank. */
  lemma {:induction false} CourseIdsMembers(entries: seq<string>)
    ensures forall x :: x in CourseIds(entries) <==> exists e :: e in entries && x == Strip(e) && x != ""
  {
    if entries != [] {
      CourseIdsMembers(entries[1..]);
      assert forall e :: e in entries <==> e == entries[0] || e in entries[1..];
    }
  }

  /** One entry contributes its strip, or nothing when that strip is blank. */
  lemma CourseIdsSingle(e: string)
    ensures CourseIds([e]) == if Strip(e) == "" then [] else [Strip(e)]
  {
    assert [e][1..] == [];
  }

  /**
   * The ids of a concatenation are the ids of each part, concatenated: entries are fetched
   * in list order and a repeated entry is fetched again.
   */
  lemma {:induction false} CourseIdsAppend(a: seq<string>, b: seq<string>)
    ensures CourseIds(a + b) == CourseIds(a) + CourseIds(b)
  {
    if a != [] {
      CourseIdsAppend(a[1..], b);
      assert (a + b)[0] == a[0];
      assert (a + b)[1..] == a[1..] + b;
    } else {
      assert a + b == b;
    }
  }

  /** A repeated id is fetched once per occurrence: `"101,101"` fetches course 101 twice. */
  lemma CourseIdsRepeats()
    ensures CourseIds(["101", "101"]) == ["101", "101"]
  {
    StripDigits("101");
    CourseIdsSingle("101");
    CourseIdsAppend(["101"], ["101"]);
    assert ["101"] + ["101"] == ["101", "101"];
  }

  /** `COURSE_LIST="101, ,102,"` splits into four entries, the last one empty. */
  lemma CourseListExample()
    ensures CourseList(map["COURSE_LIST" := "101, ,102,"]) == ["101", " ", "102", ""]
  {
    SplitJoin(["101", " ", "102", ""], ',');
    assert Join(["101", " ", "102", ""], [',']) == "101, ,102,";
  }

  /** Every fetched id has no whitespace at either end. */
  lemma CourseIdsTrimmed(entries: seq<string>)
    ensures forall x :: x in CourseIds(entries) ==> x != "" && !IsSpace(x[0]) && !IsSpace(x[|x| - 1])
  {
    CourseIdsMembers(entries);
    forall x | x in CourseIds(entries)
      ensures x != "" && !IsSpace(x[0]) && !IsSpace(x[|x| - 1])
    {
      var e :| e in entries && x == Strip(e) && x != "";
      StripSpec(e);
    }
  }

  /** An entry with no whitespace at either end is its own strip. */
  lemma StripKeeps(s: string)
    requires s != [] && !IsSpace(s[0]) && !IsSpace(s[|s| - 1])
    ensures Strip(s) == s
  {
    assert TrimLeft(s) == s;
    assert TrimRight(s) == s;
  }

  /** A run of decimal digits is its own strip. */
  lemma StripDigits(s: string)
    requires s != [] && forall i :: 0 <= i < |s| ==> '0' <= s[i] <= '9'
    ensures Strip(s) == s
  {
    StripKeeps(s);
  }

  /** Stripping a lone space, or nothing, leaves nothing. */
  lemma StripSampleBlanks()
    ensures Strip(" ") == "" && Strip("") == ""
  {
    StripSpec(" ");
    StripSpec("");
    assert AllSpace(" ");
  }

  /** Of those four entries, the blank ones are skipped and the others fetched in order. */
  lemma CourseIdsExample()
    ensures CourseIds(["101", " ", "102", ""]) == ["101", "102"]
  {
    StripSampleBlanks();
    StripDigits("101");
    StripDigits("102");
    var e := ["101", " ", "102", ""];
    var e1, e2, e3 := [" ", "102", ""], ["102", ""], [""];
    assert e3[1..] == [];
    assert CourseIds(e3) == [];
    assert e2[0] == "102" && e2[1..] == e3;
    assert CourseIds(e2) == ["102"];
    assert e1[0] == " " && e1[1..] == e2;
    assert CourseIds(e1) == ["102"];
    assert e[0] == "101" && e[1..] == e1;
  }
}
