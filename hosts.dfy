/** Parsing of a hosts-format blocklist: the per-line logic of
    `FetchBlocklist`.  Each line is trimmed; blank lines and `#` comments are
    skipped; otherwise the second whitespace-separated field is blocked. */
module Hosts {

  datatype Option<T> = None | Some(value: T)

  /** The Unicode White_Space characters, which Go's `unicode.IsSpace`
      (and so `strings.TrimSpace` and `strings.Fields`) treats as space. */
  const WhiteSpace: set<char> := {
    '\t', '\n', '\U{000B}', '\U{000C}', '\r', ' ', '\U{0085}', '\U{00A0}', '\U{1680}',
    '\U{2000}', '\U{2001}', '\U{2002}', '\U{2003}', '\U{2004}', '\U{2005}',
    '\U{2006}', '\U{2007}', '\U{2008}', '\U{2009}', '\U{200A}',
    '\U{2028}', '\U{2029}', '\U{202F}', '\U{205F}', '\U{3000}'}

  predicate IsSpace(c: char) {
    c in WhiteSpace
  }

  predicate AllSpace(s: string) {
    forall i :: 0 <= i < |s| ==> IsSpace(s[i])
  }

  predicate NoSpace(s: string) {
    forall i :: 0 <= i < |s| ==> !IsSpace(s[i])
  }

  // ---- Scanning by index ---------------------------------------------------

  /** The first index in `[i, end)` that is not white space, or `end`. */
  function SkipSpace(s: string, i: nat, end: nat): (j: nat)
    requires i <= end <= |s|
    ensures i <= j <= end
    ensures forall k :: i <= k < j ==> IsSpace(s[k])
    ensures j == end || !IsSpace(s[j])
    decreases end - i
  {
    if i == end || !IsSpace(s[i]) then i else SkipSpace(s, i + 1, end)
  }

  /** The first index in `[i, end)` that is white space, or `end`. */
  function SkipWord(s: string, i: nat, end: nat): (j: nat)
    requires i <= end <= |s|
    ensures i <= j <= end
    ensures forall k :: i <= k < j ==> !IsSpace(s[k])
    ensures j == end || IsSpace(s[j])
    decreases end - i
  {
    if i == end || IsSpace(s[i]) then i else SkipWord(s, i + 1, end)
  }

  /** The end of `s[..end]` once its trailing white space is cut off. */
  function TrimEnd(s: string, end: nat): (k: nat)
    requires end <= |s|
    ensures k <= end
    ensures forall m :: k <= m < end ==> IsSpace(s[m])
    ensures k == 0 || !IsSpace(s[k - 1])
  {
    if end == 0 || !IsSpace(s[end - 1]) then end else TrimEnd(s, end - 1)
  }

  // ---- strings.TrimSpace and strings.Fields ----------------------------------

  /** Go's `strings.TrimSpace`: `s` without its leading and trailing white
      space. */
  function TrimSpace(s: string): string
  {
    var a := SkipSpace(s, 0, |s|);
    if a == |s| then [] else s[a..TrimEnd(s, |s|)]
  }

  /** `TrimSpace(s)` is the slice of `s` starting at `a` with only white
      space around it, and it neither starts nor ends with white space. */
  lemma TrimSpaceSlice(s: string) returns (a: nat)
    ensures a + |TrimSpace(s)| <= |s| && TrimSpace(s) == s[a..a + |TrimSpace(s)|]
    ensures forall k :: 0 <= k < a ==> IsSpace(s[k])
    ensures forall k :: a + |TrimSpace(s)| <= k < |s| ==> IsSpace(s[k])
    ensures TrimSpace(s) != [] ==> !IsSpace(TrimSpace(s)[0]) && !IsSpace(TrimSpace(s)[|TrimSpace(s)| - 1])
  {
    a := SkipSpace(s, 0, |s|);
    if a == |s| {
      a := 0;
    }
  }

  /** The maximal runs of non-space characters of `s[i..end]`, in order. */
  function FieldsIn(s: string, i: nat, end: nat): seq<string>
    requires i <= end <= |s|
    decreases end - i
  {
    var j := SkipSpace(s, i, end);
    if j == end then [] else
      var e := SkipWord(s, j, end);
      [s[j..e]] + FieldsIn(s, e, end)
  }

  /** Every field is a non-empty run of non-space characters. */
  lemma {:induction false} FieldsAreWords(s: string, i: nat, end: nat)
    requires i <= end <= |s|
    ensures forall n :: 0 <= n < |FieldsIn(s, i, end)| ==> FieldsIn(s, i, end)[n] != [] && NoSpace(FieldsIn(s, i, end)[n])
    decreases end - i
  {
    var j := SkipSpace(s, i, end);
    if j < end {
      var e := SkipWord(s, j, end);
      FieldsAreWords(s, e, end);
      var rest := FieldsIn(s, e, end);
      assert FieldsIn(s, i, end) == [s[j..e]] + rest;
      assert NoSpace(s[j..e]) by {
        forall k | 0 <= k < e - j ensures !IsSpace(s[j..e][k]) {
          assert s[j..e][k] == s[j + k];
        }
      }
    }
  }

  /** Go's `strings.Fields`. */
  function Fields(s: string): seq<string>
  {
    FieldsIn(s, 0, |s|)
  }

  // ---- One line, and a whole body -------------------------------------------

  /** `strings.HasPrefix(line, "#")`. */
  predicate IsComment(line: string) {
    |line| > 0 && line[0] == '#'
  }

  /** The name one blocklist line contributes, if any. */
  function LineName(raw: string): Option<string>
  {
    var line := TrimSpace(raw);
    if IsComment(line) || line == [] then None
    else
      var fields := Fields(line);
      if |fields| > 1 then Some(fields[1]) else None
  }

  function NameSet(d: Option<string>): set<string> {
    if d.Some? then {d.value} else {}
  }

  /** The names a sequence of per-line results contributes. */
  function Names(ds: seq<Option<string>>): set<string>
  {
    if ds == [] then {} else Names(ds[..|ds| - 1]) + NameSet(ds[|ds| - 1])
  }

  lemma {:induction false} NamesMember(ds: seq<Option<string>>, d: string)
    ensures d in Names(ds) <==> exists i :: 0 <= i < |ds| && ds[i] == Some(d)
    decreases |ds|
  {
    if ds != [] {
      var init := ds[..|ds| - 1];
      NamesMember(init, d);
      assert forall i :: 0 <= i < |init| ==> init[i] == ds[i];
    }
  }

  lemma NamesSnoc(ds: seq<Option<string>>, i: nat)
    requires i < |ds|
    ensures Names(ds[..i + 1]) == Names(ds[..i]) + NameSet(ds[i])
  {
    assert ds[..i + 1][..i] == ds[..i];
  }

  /** The per-line results of a blocklist body, line by line. */
  function ParseLines(lines: seq<string>): seq<Option<string>>
  {
    seq(|lines|, i requires 0 <= i < |lines| => LineName(lines[i]))
  }

  /** The names a whole blocklist body yields. */
  function BlockedNames(lines: seq<string>): set<string>
  {
    Names(ParseLines(lines))
  }

  /** A name is in the parsed list exactly when some line contributes it. */
  lemma BlockedNamesMember(lines: seq<string>, d: string)
    ensures d in BlockedNames(lines) <==> exists i :: 0 <= i < |lines| && LineName(lines[i]) == Some(d)
  {
    var ds := ParseLines(lines);
    assert |ds| == |lines| && forall i :: 0 <= i < |lines| ==> ds[i] == LineName(lines[i]);
    NamesMember(ds, d);
  }

  /** The scan loop of `FetchBlocklist` over the lines the scanner yields:
      a fresh set, filled line by line. */
  method FetchBlocklist(lines: seq<string>) returns (blocklist: set<string>)
    ensures blocklist == BlockedNames(lines)
  {
    ghost var parsed := ParseLines(lines);
    blocklist := {};
    var i := 0;
    while i < |lines|
      invariant 0 <= i <= |lines|
      invariant blocklist == Names(parsed[..i])
    {
      NamesSnoc(parsed, i);
      assert parsed[i] == LineName(lines[i]);
      var line := TrimSpace(lines[i]);
      if IsComment(line) || line == [] {
        assert parsed[i] == None;
        i := i + 1;
        continue;
      }
      var fields := Fields(line);
      if |fields| > 1 {
        assert parsed[i] == Some(fields[1]);
        blocklist := blocklist + {fields[1]};
      } else {
        assert parsed[i] == None;
      }
      i := i + 1;
    }
    assert parsed[..i] == parsed;
  }

  // ---- Scanning lemmas -----------------------------------------------------

  /** `SkipSpace` stops at the first non-space index and nowhere else. */
  lemma {:induction false} SkipSpaceAt(s: string, i: nat, j: nat, end: nat)
    requires i <= j <= end <= |s|
    requires forall k :: i <= k < j ==> IsSpace(s[k])
    requires j == end || !IsSpace(s[j])
    ensures SkipSpace(s, i, end) == j
    decreases j - i
  {
    if i < j {
      SkipSpaceAt(s, i + 1, j, end);
    }
  }

  /** `SkipWord` stops at the first space index and nowhere else. */
  lemma {:induction false} SkipWordAt(s: string, i: nat, j: nat, end: nat)
    requires i <= j <= end <= |s|
    requires forall k :: i <= k < j ==> !IsSpace(s[k])
    requires j == end || IsSpace(s[j])
    ensures SkipWord(s, i, end) == j
    decreases j - i
  {
    if i < j {
      SkipWordAt(s, i + 1, j, end);
    }
  }

  /** Leading white space does not change the fields. */
  lemma FieldsInSkip(s: string, i: nat, j: nat, end: nat)
    requires i <= j <= end <= |s|
    requires forall k :: i <= k < j ==> IsSpace(s[k])
    ensures FieldsIn(s, i, end) == FieldsIn(s, j, end)
  {
    SkipSpaceAt(s, i, SkipSpace(s, j, end), end);
  }

  /** Trailing white space does not change the fields. */
  lemma {:induction false} FieldsInExtend(s: string, i: nat, end: nat, end': nat)
    requires i <= end <= end' <= |s|
    requires forall k :: end <= k < end' ==> IsSpace(s[k])
    ensures FieldsIn(s, i, end') == FieldsIn(s, i, end)
    decreases end - i
  {
    var j := SkipSpace(s, i, end);
    if j == end {
      SkipSpaceAt(s, i, end', end');
    } else {
      SkipSpaceAt(s, i, j, end');
      var e := SkipWord(s, j, end);
      SkipWordAt(s, j, e, end');
      FieldsInExtend(s, e, end, end');
    }
  }

  /** `SkipSpace` depends only on the characters in range. */
  lemma ShiftSkipSpace(t: string, s: string, a: nat, i: nat, end: nat)
    requires i <= end <= |t| && a + end <= |s|
    requires forall k :: i <= k < end ==> t[k] == s[a + k]
    ensures SkipSpace(s, a + i, a + end) == a + SkipSpace(t, i, end)
  {
    var j := SkipSpace(t, i, end);
    forall k | a + i <= k < a + j ensures IsSpace(s[k]) {
      assert t[k - a] == s[k];
    }
    assert j < end ==> t[j] == s[a + j];
    SkipSpaceAt(s, a + i, a + j, a + end);
  }

  /** `SkipWord` depends only on the characters in range. */
  lemma ShiftSkipWord(t: string, s: string, a: nat, i: nat, end: nat)
    requires i <= end <= |t| && a + end <= |s|
    requires forall k :: i <= k < end ==> t[k] == s[a + k]
    ensures SkipWord(s, a + i, a + end) == a + SkipWord(t, i, end)
  {
    var e := SkipWord(t, i, end);
    forall k | a + i <= k < a + e ensures !IsSpace(s[k]) {
      assert t[k - a] == s[k];
    }
    assert e < end ==> t[e] == s[a + e];
    SkipWordAt(s, a + i, a + e, a + end);
  }

  /** A slice of `t` equals the matching slice of `s` shifted by `a`. */
  lemma ShiftSlice(t: string, s: string, a: nat, j: nat, e: nat)
    requires j <= e <= |t| && a + e <= |s|
    requires forall k :: j <= k < e ==> t[k] == s[a + k]
    ensures t[j..e] == s[a + j..a + e]
  {
    forall k | 0 <= k < e - j ensures t[j..e][k] == s[a + j..a + e][k] {
      assert t[j + k] == s[a + j + k];
    }
  }

  /** Fields depend only on the characters in range: if `t` agrees with `s`
      shifted by `a` on `[i, end)`, both have the same fields there. */
  lemma {:induction false} FieldsInShift(t: string, s: string, a: nat, i: nat, end: nat)
    requires i <= end <= |t| && a + end <= |s|
    requires forall k :: i <= k < end ==> t[k] == s[a + k]
    ensures FieldsIn(t, i, end) == FieldsIn(s, a + i, a + end)
    decreases end - i
  {
    var j := SkipSpace(t, i, end);
    ShiftSkipSpace(t, s, a, i, end);
    if j < end {
      var e := SkipWord(t, j, end);
      ShiftSkipWord(t, s, a, j, end);
      calc {
        FieldsIn(t, i, end);
        [t[j..e]] + FieldsIn(t, e, end);
        { ShiftSlice(t, s, a, j, e); FieldsInShift(t, s, a, e, end); }
        [s[a + j..a + e]] + FieldsIn(s, a + e, a + end);
        FieldsIn(s, a + i, a + end);
      }
    }
  }

  /** The fields of a slice are the fields of that range. */
  lemma FieldsOfSlice(t: string, s: string, a: nat, b: nat)
    requires a <= b <= |s| && t == s[a..b]
    ensures FieldsIn(t, 0, b - a) == FieldsIn(s, a, b)
  {
    FieldsInShift(t, s, a, 0, b - a);
  }

  /** Trimming before splitting does not change the fields; the trim only
      matters for the comment test. */
  lemma FieldsOfTrimSpace(s: string)
    ensures Fields(TrimSpace(s)) == Fields(s)
  {
    var a := SkipSpace(s, 0, |s|);
    if a < |s| {
      var b := TrimEnd(s, |s|);
      assert !IsSpace(s[a]);
      assert a < b;
      var t := TrimSpace(s);
      assert t == s[a..b] && |t| == b - a;
      FieldsOfSlice(t, s, a, b);
      FieldsInExtend(s, a, b, |s|);
      FieldsInSkip(s, 0, a, |s|);
    }
  }

  // ---- What one line contributes ------------------------------------------

  /** A blank line adds nothing. */
  lemma BlankLineAddsNothing(raw: string)
    requires AllSpace(raw)
    ensures LineName(raw) == None
  {
    SkipSpaceAt(raw, 0, |raw|, |raw|);
  }

  /** A line whose first non-space character, at index `a`, is `#` adds
      nothing, however many fields follow. */
  lemma CommentLineAddsNothing(raw: string, a: nat)
    requires a < |raw| && raw[a] == '#'
    requires forall k :: 0 <= k < a ==> IsSpace(raw[k])
    ensures LineName(raw) == None
  {
    assert !IsSpace('#');
    SkipSpaceAt(raw, 0, a, |raw|);
    assert TrimSpace(raw)[0] == '#';
  }

  /** A line whose first field occupies `[a, b)` and whose second field
      occupies `[c, d)` adds exactly that second field, provided the first
      field does not open a comment. */
  lemma AddsSecondField(raw: string, a: nat, b: nat, c: nat, d: nat)
    requires a < b < c < d <= |raw|
    requires forall k :: 0 <= k < a ==> IsSpace(raw[k])
    requires forall k :: a <= k < b ==> !IsSpace(raw[k])
    requires forall k :: b <= k < c ==> IsSpace(raw[k])
    requires forall k :: c <= k < d ==> !IsSpace(raw[k])
    requires d == |raw| || IsSpace(raw[d])
    requires raw[a] != '#'
    ensures LineName(raw) == Some(raw[c..d])
  {
    var n := |raw|;
    SkipSpaceAt(raw, 0, a, n);
    SkipWordAt(raw, a, b, n);
    SkipSpaceAt(raw, b, c, n);
    SkipWordAt(raw, c, d, n);
    assert FieldsIn(raw, b, n) == [raw[c..d]] + FieldsIn(raw, d, n);
    assert Fields(raw) == [raw[a..b], raw[c..d]] + FieldsIn(raw, d, n);
    FieldsOfTrimSpace(raw);
    assert TrimSpace(raw)[0] == raw[a];
  }

  /** Printable ASCII other than the space character is not white space. */
  lemma PrintableNoSpace(s: string)
    requires forall k :: 0 <= k < |s| ==> '!' <= s[k] <= '~'
    ensures NoSpace(s)
  {
    forall k | 0 <= k < |s| ensures !IsSpace(s[k]) {
      var c := s[k];
      assert c !in WhiteSpace by {
        assert forall w :: w in WhiteSpace ==> w < '!' || '~' < w;
      }
    }
  }

  /** A hosts entry, an address and a name separated by one space,
      contributes the name exactly as written. */
  lemma HostsEntryName(address: string, name: string)
    requires address != [] && name != [] && address[0] != '#'
    requires NoSpace(address) && NoSpace(name)
    ensures LineName(address + [' '] + name) == Some(name)
  {
    var raw := address + [' '] + name;
    var b, d := |address|, |raw|;
    assert forall k :: 0 <= k < b ==> raw[k] == address[k];
    assert forall k :: b + 1 <= k < d ==> raw[k] == name[k - b - 1];
    assert raw[b..d] == [' '] + name;
    assert raw[b + 1..d] == name;
    AddsSecondField(raw, 0, b, b + 1, d);
  }

  /** A hosts-format line yields its name as written, with no trailing dot,
      whereas query names on the wire are fully qualified and end in one. */
  lemma BareEntryName()
    ensures LineName("0.0.0.0 ads.example.com") == Some("ads.example.com")
  {
    var address, name := "0.0.0.0", "ads.example.com";
    PrintableNoSpace(address);
    PrintableNoSpace(name);
    assert address + [' '] + name == "0.0.0.0 ads.example.com";
    HostsEntryName(address, name);
  }

  /** A line with a single field, at `[a, b)`, adds nothing. */
  lemma SingleFieldAddsNothing(raw: string, a: nat, b: nat)
    requires a < b <= |raw|
    requires forall k :: 0 <= k < a ==> IsSpace(raw[k])
    requires forall k :: a <= k < b ==> !IsSpace(raw[k])
    requires forall k :: b <= k < |raw| ==> IsSpace(raw[k])
    ensures LineName(raw) == None
  {
    var n := |raw|;
    SkipSpaceAt(raw, 0, a, n);
    SkipWordAt(raw, a, b, n);
    SkipSpaceAt(raw, b, n, n);
    assert FieldsIn(raw, b, n) == [];
    assert Fields(raw) == [raw[a..b]];
    FieldsOfTrimSpace(raw);
  }
}
