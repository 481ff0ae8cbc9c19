// infparser/file.py: queries over the sections of a parsed INF file: string
// keys (`%strkey%`) and their expansion, manufacturers, models, install
// sections and file lists.
module InfFile {
  import opened Wrappers
  import opened PyStr
  import opened PyRe
  import opened CaseInsensitive
  import opened InfParser
  import opened InfDevice

  /** The parsed sections of an INF file, keyed case-insensitively by name. */
  type Sections = Entries<InfSection>

  /** `InfFile.from_string`: the sections of the text. */
  function FromString(text: string): (r: Sections)
    ensures Folded(r) && KeysDistinct(r)
  {
    ParseFolded(text);
    Parse(text)
  }

  /** `_is_string_key`: first and last character are '%'; an empty key is an IndexError. */
  function IsStringKey(spec: string): (r: Result<bool>)
    ensures r.Fail? <==> spec == []
    ensures r.Fail? ==> r.error == IndexError
    ensures r == Ok(true) ==> StartsWith(spec, "%") && EndsWith(spec, "%")
    ensures r == Ok(false) ==> !(StartsWith(spec, "%") && EndsWith(spec, "%"))
  {
    if spec == [] then Fail(IndexError) else Ok(spec[0] == '%' && spec[|spec| - 1] == '%')
  }

  /** `to_string_key`: the text between the first and the second '%'. */
  function ToStringKey(spec: string): (r: string)
    requires |spec| > 0 && spec[0] == '%'
    ensures !Contains(r, "%")
  {
    assert OccursAt(spec, "%", 0) by { assert spec[0..1] == "%"; }
    SplitContains(spec, "%");
    SplitPiecesFree(spec, "%");
    assert Split(spec, "%")[1] in Split(spec, "%");
    Split(spec, "%")[1]
  }

  /** A key written `%name%...` names the string `name`. */
  lemma ToStringKeyOf(name: string, rest: string)
    requires !Contains(name, "%")
    ensures ToStringKey("%" + name + "%" + rest) == name
  {
    var s := "%" + name + "%" + rest;
    assert s[0..1] == "%";
    assert Find(s, "%") == 0;
    var t := s[1..];
    assert t == name + "%" + rest;
    assert t[|name|..|name| + 1] == "%";
    assert OccursAt(t, "%", |name|);
    forall j | 0 <= j < |name| ensures !OccursAt(t, "%", j)
    {
      assert t[j..j + 1] == name[j..j + 1];
      assert !OccursAt(name, "%", j);
    }
    assert Find(t, "%") == |name|;
    assert Split(s, "%") == [s[..0]] + Split(t, "%");
    assert Split(t, "%")[0] == t[..|name|] == name;
  }

  /**
   * `get_string`: a key that is not a string key is returned as it is; a
   * string key gives its entry in the "strings" section, or "" when that
   * section does not define it. A missing "strings" section is a KeyError.
   */
  function GetString(sections: Sections, key: string): (r: Result<string>)
    ensures r.Fail? ==> (key == [] && r.error == IndexError) || (r.error == KeyError && !HasKey(sections, "strings"))
    ensures IsStringKey(key) == Ok(false) ==> r == Ok(key)
  {
    var isKey :- IsStringKey(key);
    if !isKey then Ok(key)
    else
      var strings :- Lookup(sections, "strings");
      var stringKey := ToStringKey(key);
      if !HasKey(strings.data, Lower(stringKey)) then Ok("")
      else Lookup(strings.data, stringKey)
  }

  /** The value of a defined string, or "" for an undefined one. */
  function StringValue(strings: InfSection, name: string): string
  {
    match Lookup(strings.data, name)
    case Ok(v) => v
    case Fail(_) => ""
  }

  /** With a "strings" section, `%name%...` resolves to the string `name` (or ""). */
  lemma GetStringOf(sections: Sections, name: string, rest: string)
    requires !Contains(name, "%") && HasKey(sections, "strings")
    requires rest == [] || rest[|rest| - 1] == '%'
    ensures GetString(sections, "%" + name + "%" + rest) == Ok(StringValue(Lookup(sections, "strings").value, name))
  {
    ToStringKeyOf(name, rest);
    LowerIdempotent(name);
    var key := "%" + name + "%" + rest;
    assert key[0] == '%' && key[|key| - 1] == '%';
  }

  /**
   * `expand_key`, as written: `(%.+%)` is greedy, so it finds at most one
   * token per line, from the first '%' to the last; that whole token is
   * replaced by the string named between its first two '%'.
   */
  function ExpandKey(sections: Sections, key: string): (r: Result<string>)
    ensures r.Fail? ==> r.error == KeyError && !HasKey(sections, "strings")
  {
    match GreedySearch(key, '%', '%')
    case None => Ok(key)
    case Some((i, j)) =>
      var token := key[i..j + 1];
      var expanded :- GetString(sections, token);
      Ok(Replace(key, token, expanded))
  }

  /** As written, a key without '%' is left alone too. */
  lemma ExpandKeyPlain(sections: Sections, key: string)
    requires !Contains(key, "%")
    ensures ExpandKey(sections, key) == Ok(key)
  {
    ContainsChar(key, '%');
  }

  /**
   * `expand_key` as its comment describes it ("one or more %xxx% string
   * tokens"): the lazy `(%.+?%)`, each token replaced by its string, left to
   * right.
   */
  function ExpandTokens(sections: Sections, key: string): (r: Result<string>)
    ensures r.Fail? ==> r.error == KeyError && !HasKey(sections, "strings")
    decreases |key|
  {
    var i := Find(key, "%");
    if i < 0 then Ok(key)
    else
      var j := FindFrom(key, "%", i + 2);
      if j < 0 then Ok(key)
      else
        var expanded :- GetString(sections, key[i..j + 1]);
        var rest :- ExpandTokens(sections, key[j + 1..]);
        Ok(key[..i] + expanded + rest)
  }

  /** A key without '%' is left alone. */
  lemma ExpandTokensPlain(sections: Sections, key: string)
    requires !Contains(key, "%")
    ensures ExpandTokens(sections, key) == Ok(key)
  {
  }

  /**
   * Expansion goes token by token: the text before the first token is kept,
   * the token becomes its string, and the rest is expanded in turn.
   */
  lemma ExpandTokensToken(sections: Sections, key: string, text: string, name: string, rest: string)
    requires key == text + "%" + name + "%" + rest
    requires !Contains(text, "%") && !Contains(name, "%") && name != []
    requires HasKey(sections, "strings")
    ensures ExpandTokens(sections, key) ==
      match ExpandTokens(sections, rest)
      case Ok(r) => Ok(text + StringValue(Lookup(sections, "strings").value, name) + r)
      case Fail(e) => Fail(e)
  {
    var s := text + "%" + name + "%" + rest;
    var i, j := |text|, |text| + 1 + |name|;
    TokenPositions(text, name, rest);
    GetStringOf(sections, name, []);
    assert "%" + name + "%" + [] == "%" + name + "%";
  }

  /** Where the lazy search finds the first token of `text%name%rest`. */
  lemma TokenPositions(text: string, name: string, rest: string)
    requires !Contains(text, "%") && !Contains(name, "%") && name != []
    ensures var s := text + "%" + name + "%" + rest;
      var i, j := |text|, |text| + 1 + |name|;
      Find(s, "%") == i && FindFrom(s, "%", i + 2) == j &&
      s[i..j + 1] == "%" + name + "%" && s[j + 1..] == rest && s[..i] == text
  {
    var s := text + "%" + name + "%" + rest;
    var i, j := |text|, |text| + 1 + |name|;
    ContainsChar(text, '%');
    ContainsChar(name, '%');
    assert forall k :: 0 <= k < i ==> s[k] == text[k];
    assert forall k :: i + 1 <= k < j ==> s[k] == name[k - i - 1];
    FindFromChar(s, '%', 0, i);
    FindFromChar(s, '%', i + 2, j);
  }

  /**
   * As written, a line that starts and ends with '%' is one token: the
   * whole line becomes the string named between its first two '%'.
   */
  lemma ExpandKeyWholeLine(sections: Sections, key: string)
    requires |key| >= 3 && key[0] == '%' && key[|key| - 1] == '%'
    ensures ExpandKey(sections, key) == GetString(sections, key)
  {
    ExpandKeyReplacesLine(sections, key);
    var v := GetString(sections, key);
    if v.Ok? {
      ReplaceWhole(key, v.value);
    }
  }

  lemma ExpandKeyReplacesLine(sections: Sections, key: string)
    requires |key| >= 3 && key[0] == '%' && key[|key| - 1] == '%'
    ensures var v := GetString(sections, key);
      ExpandKey(sections, key) == if v.Fail? then Fail(v.error) else Ok(Replace(key, key, v.value))
  {
    GreedyWhole(key);
    var (i, j) := GreedySearch(key, '%', '%').value;
    assert key[i..j + 1] == key;
  }

  /** The greedy search on a line that starts and ends with '%' spans the whole line. */
  lemma GreedyWhole(key: string)
    requires |key| >= 3 && key[0] == '%' && key[|key| - 1] == '%'
    ensures GreedySearch(key, '%', '%').Some? && GreedySearch(key, '%', '%').value == (0, |key| - 1) && key[0..|key|] == key
  {
    var m := GreedySearch(key, '%', '%');
    assert m.Some?;
  }

  /**
   * So a line with two tokens is replaced as a whole by the string of the
   * first token, and the text between and the second token are lost; the
   * token-by-token expansion keeps them.
   */
  lemma ExpandKeySwallowsSecondToken(sections: Sections, a: string, between: string, b: string)
    requires !Contains(a, "%") && !Contains(between, "%") && !Contains(b, "%") && a != [] && b != []
    requires HasKey(sections, "strings")
    ensures var key := "%" + a + "%" + between + "%" + b + "%";
      var strings := Lookup(sections, "strings").value;
      ExpandKey(sections, key) == Ok(StringValue(strings, a)) &&
      ExpandTokens(sections, key) == Ok(StringValue(strings, a) + between + StringValue(strings, b))
  {
    var strings := Lookup(sections, "strings").value;
    var va, vb := StringValue(strings, a), StringValue(strings, b);
    var none: string := [];
    var tail := between + "%" + b + "%";
    var key := "%" + a + "%" + between + "%" + b + "%";
    TwoTokenLine(a, between, b, va, vb);
    assert ExpandKey(sections, key) == Ok(va) by {
      ExpandKeyWholeLine(sections, key);
      GetStringOf(sections, a, tail);
    }
    ExpandTokensLast(sections, tail, between, b);
    ExpandTokensToken(sections, key, none, a, tail);
  }

  /** How the two-token line and its expansion regroup. */
  lemma TwoTokenLine(a: string, between: string, b: string, va: string, vb: string)
    ensures var none: string := [];
      var tail := between + "%" + b + "%";
      "%" + a + "%" + between + "%" + b + "%" == "%" + a + "%" + tail == none + "%" + a + "%" + tail &&
      none + va + (between + vb) == va + between + vb
  {
  }

  /** A line whose only token ends it expands to its text and that token's string. */
  lemma ExpandTokensLast(sections: Sections, line: string, text: string, name: string)
    requires !Contains(text, "%") && !Contains(name, "%") && name != []
    requires HasKey(sections, "strings")
    requires line == text + "%" + name + "%"
    ensures ExpandTokens(sections, line) == Ok(text + StringValue(Lookup(sections, "strings").value, name))
  {
    var none: string := [];
    var v := StringValue(Lookup(sections, "strings").value, name);
    assert line == text + "%" + name + "%" + none;
    assert ExpandTokens(sections, none) == Ok(none);
    ExpandTokensToken(sections, line, text, name, none);
    assert ExpandTokens(sections, line) == Ok(text + v + none);
    assert text + v + none == text + v;
  }

  /** The smallest such line: "%a% and %b%" with a = "x" and b = "y" reads "x" as written, "x and y" as intended. */
  lemma ExpandKeyExample(sections: Sections)
    requires Lookup(sections, "strings") == Ok(InfSection("strings", [Entry("a", "a", "x"), Entry("b", "b", "y")]))
    ensures ExpandKey(sections, "%a% and %b%") == Ok("x")
    ensures ExpandTokens(sections, "%a% and %b%") == Ok("x and y")
  {
    ExampleStrings(sections);
    ExampleText();
    ExpandKeySwallowsSecondToken(sections, "a", " and ", "b");
  }

  lemma ExampleStrings(sections: Sections)
    requires Lookup(sections, "strings") == Ok(InfSection("strings", [Entry("a", "a", "x"), Entry("b", "b", "y")]))
    ensures HasKey(sections, "strings")
    ensures StringValue(Lookup(sections, "strings").value, "a") == "x"
    ensures StringValue(Lookup(sections, "strings").value, "b") == "y"
    ensures !Contains("a", "%") && !Contains("b", "%") && !Contains(" and ", "%")
  {
    assert Lower("a") == "a" && Lower("b") == "b";
    assert Lower("strings") in LowerKeys(sections);
    NotContainsChar("a", '%');
    NotContainsChar("b", '%');
    NotContainsChar(" and ", '%');
  }

  lemma ExampleText()
    ensures "%" + "a" + "%" + " and " + "%" + "b" + "%" == "%a% and %b%"
    ensures "x" + " and " + "y" == "x and y"
  {
  }

  // ---------------------------------------------------------------------
  // [version] entries

  /** An entry of the [version] section, or None when the section or the entry is missing. */
  function VersionEntry(sections: Sections, name: string): (r: Option<string>)
    ensures r.Some? <==> HasKey(sections, "version") && HasKey(Lookup(sections, "version").value.data, name)
    ensures r.Some? ==> Lookup(Lookup(sections, "version").value.data, name) == Ok(r.value)
  {
    match Lookup(sections, "version")
    case Fail(_) => None
    case Ok(version) =>
      match Lookup(version.data, name)
      case Fail(_) => None
      case Ok(v) => Some(v)
  }

  /** `get_class`: the `class` entry of [version]. */
  function GetClass(sections: Sections): (r: Option<string>)
    ensures r == VersionEntry(sections, "class")
  {
    VersionEntry(sections, "class")
  }

  /** `get_catalog`: the `catalogfile` entry of [version]. */
  function GetCatalog(sections: Sections): (r: Option<string>)
    ensures r == VersionEntry(sections, "catalogfile")
  {
    VersionEntry(sections, "catalogfile")
  }

  // ---------------------------------------------------------------------
  // The loops of file.py stop at the first exception. The folds below model
  // that once, over a sequence of per-item results, so that what they
  // collect is proved apart from the INF lookups producing the items.

  /** The union of a run of results, or the first failure among them. */
  function Union(rs: seq<Result<set<string>>>): (r: Result<set<string>>)
    ensures r.Ok? <==> forall i :: 0 <= i < |rs| ==> rs[i].Ok?
    ensures r.Fail? ==> exists i :: 0 <= i < |rs| && rs[i] == Fail(r.error)
  {
    if rs == [] then Ok({})
    else
      var before :- Union(rs[..|rs| - 1]);
      var last :- rs[|rs| - 1];
      Ok(before + last)
  }

  /** What the union holds: the members of every result. */
  lemma {:induction false} UnionSpec(rs: seq<Result<set<string>>>, x: string)
    requires Union(rs).Ok?
    ensures x in Union(rs).value <==> exists i :: 0 <= i < |rs| && rs[i].Ok? && x in rs[i].value
  {
    if rs == [] {
      assert Union(rs) == Ok({});
    } else {
      var n := |rs| - 1;
      var init := rs[..n];
      UnionSpec(init, x);
      assert Union(rs) == Ok(Union(init).value + rs[n].value);
      if x in Union(init).value {
        var i :| 0 <= i < |init| && init[i].Ok? && x in init[i].value;
        assert init[i] == rs[i];
      }
      if i :| 0 <= i < |rs| && rs[i].Ok? && x in rs[i].value {
        if i < n {
          assert init[i] == rs[i];
        }
      }
    }
  }

  lemma UnionNext(rs: seq<Result<set<string>>>, i: nat, acc: set<string>)
    requires i < |rs| && Union(rs[..i]) == Ok(acc)
    ensures Union(rs[..i + 1]) == if rs[i].Ok? then Ok(acc + rs[i].value) else Fail(rs[i].error)
  {
    assert rs[..i + 1][..i] == rs[..i];
  }

  /** Once a prefix has failed, the whole fails the same way. */
  lemma {:induction false} UnionFailPrefix(rs: seq<Result<set<string>>>, k: nat)
    requires k <= |rs| && Union(rs[..k]).Fail?
    ensures Union(rs) == Union(rs[..k])
    decreases |rs|
  {
    if k < |rs| {
      assert rs[..|rs| - 1][..k] == rs[..k];
      UnionFailPrefix(rs[..|rs| - 1], k);
    } else {
      assert rs[..k] == rs;
    }
  }

  /** The map from `keys[i]` to the value of every `Some` result, or the first failure. */
  function Collect<V>(keys: seq<string>, rs: seq<Result<Option<V>>>): (r: Result<map<string, V>>)
    requires |keys| == |rs|
    ensures r.Ok? <==> forall i :: 0 <= i < |rs| ==> rs[i].Ok?
    ensures r.Fail? ==> exists i :: 0 <= i < |rs| && rs[i] == Fail(r.error)
  {
    if rs == [] then Ok(map[])
    else
      var n := |rs| - 1;
      var before :- Collect(keys[..n], rs[..n]);
      var last :- rs[n];
      if last.None? then Ok(before) else Ok(before[keys[n] := last.value])
  }

  /** The keys collected are those of the `Some` results. */
  lemma {:induction false} CollectKeys<V>(keys: seq<string>, rs: seq<Result<Option<V>>>, k: string)
    requires |keys| == |rs| && Collect(keys, rs).Ok?
    ensures k in Collect(keys, rs).value <==> exists i :: 0 <= i < |rs| && rs[i].Ok? && rs[i].value.Some? && keys[i] == k
  {
    if rs == [] {
      assert Collect(keys, rs) == Ok(map[]);
    } else {
      var n := |rs| - 1;
      var ki, ri := keys[..n], rs[..n];
      CollectKeys(ki, ri, k);
      if k in Collect(ki, ri).value {
        var i :| 0 <= i < |ri| && ri[i].Ok? && ri[i].value.Some? && ki[i] == k;
        assert ri[i] == rs[i] && ki[i] == keys[i];
      }
      if i :| 0 <= i < |rs| && rs[i].Ok? && rs[i].value.Some? && keys[i] == k {
        if i < n {
          assert ri[i] == rs[i] && ki[i] == keys[i];
        }
      }
    }
  }

  /** With distinct keys, each `Some` result is found under its own key. */
  lemma {:induction false} CollectValues<V>(keys: seq<string>, rs: seq<Result<Option<V>>>, i: nat)
    requires |keys| == |rs| && Collect(keys, rs).Ok?
    requires forall a, b :: 0 <= a < b < |keys| ==> keys[a] != keys[b]
    requires i < |rs| && rs[i].value.Some?
    ensures keys[i] in Collect(keys, rs).value && Collect(keys, rs).value[keys[i]] == rs[i].value.value
  {
    var n := |rs| - 1;
    if i < n {
      var ki, ri := keys[..n], rs[..n];
      assert ri[i] == rs[i] && ki[i] == keys[i];
      CollectValues(ki, ri, i);
    }
  }

  lemma CollectNext<V>(keys: seq<string>, rs: seq<Result<Option<V>>>, i: nat, acc: map<string, V>)
    requires |keys| == |rs| && i < |rs| && Collect(keys[..i], rs[..i]) == Ok(acc)
    ensures Collect(keys[..i + 1], rs[..i + 1]) ==
      match rs[i]
      case Fail(e) => Fail(e)
      case Ok(None) => Ok(acc)
      case Ok(Some(v)) => Ok(acc[keys[i] := v])
  {
    assert keys[..i + 1][..i] == keys[..i];
    assert rs[..i + 1][..i] == rs[..i];
  }

  lemma {:induction false} CollectFailPrefix<V>(keys: seq<string>, rs: seq<Result<Option<V>>>, k: nat)
    requires |keys| == |rs| && k <= |rs| && Collect(keys[..k], rs[..k]).Fail?
    ensures Collect(keys, rs) == Collect(keys[..k], rs[..k])
    decreases |rs|
  {
    var n := |rs| - 1;
    if k < |rs| {
      assert keys[..n][..k] == keys[..k];
      assert rs[..n][..k] == rs[..k];
      CollectFailPrefix(keys[..n], rs[..n], k);
    } else {
      assert keys[..k] == keys;
      assert rs[..k] == rs;
    }
  }

  // ---------------------------------------------------------------------
  // File lists: `get_files`

  /** The keys of a section's entries, in order. */
  function Keys<V>(data: Entries<V>): (r: seq<string>)
    ensures |r| == |data| && forall i :: 0 <= i < |data| ==> r[i] == data[i].key
  {
    seq(|data|, i requires 0 <= i < |data| => data[i].key)
  }

  /** The file an entry of a file list names: its first comma field, lower-cased, expanded. */
  function FileName(sections: Sections, entry: string): (r: Result<string>)
    ensures r.Fail? ==> r.error == KeyError && !HasKey(sections, "strings")
  {
    ExpandTokens(sections, Lower(Split(entry, ",")[0]))
  }

  /** The file of each entry, as a one-element set. */
  function FileNames(sections: Sections, entries: seq<string>): (r: seq<Result<set<string>>>)
    ensures |r| == |entries|
    ensures forall i :: 0 <= i < |entries| ==>
      r[i] == match FileName(sections, entries[i]) case Ok(f) => Ok({f}) case Fail(e) => Fail(e)
  {
    seq(|entries|, i requires 0 <= i < |entries| =>
      match FileName(sections, entries[i]) case Ok(f) => Ok({f}) case Fail(e) => Fail(e))
  }

  /**
   * `get_files`: "@name" is the single file `name`; a missing section is no
   * files; otherwise the files named by the entries of that section.
   */
  function GetFilesOf(sections: Sections, key: string): (r: Result<set<string>>)
    ensures StartsWith(key, "@") ==> r == Ok({key[1..]})
    ensures !StartsWith(key, "@") && !HasKey(sections, key) ==> r == Ok({})
  {
    if StartsWith(key, "@") then Ok({key[1..]})
    else if !HasKey(sections, key) then Ok({})
    else Union(FileNames(sections, Keys(Lookup(sections, key).value.data)))
  }

  /** A listed section names a file exactly when one of its entries does, and fails if any entry fails. */
  lemma FilesOfSpec(sections: Sections, key: string, x: string)
    requires !StartsWith(key, "@") && HasKey(sections, key)
    ensures var entries := Keys(Lookup(sections, key).value.data);
      GetFilesOf(sections, key).Ok? <==> forall i :: 0 <= i < |entries| ==> FileName(sections, entries[i]).Ok?
    ensures var entries := Keys(Lookup(sections, key).value.data);
      GetFilesOf(sections, key).Ok? ==>
        (x in GetFilesOf(sections, key).value <==> exists i :: 0 <= i < |entries| && FileName(sections, entries[i]) == Ok(x))
  {
    var entries := Keys(Lookup(sections, key).value.data);
    var rs := FileNames(sections, entries);
    if Union(rs).Ok? {
      UnionSpec(rs, x);
      if i :| 0 <= i < |entries| && FileName(sections, entries[i]) == Ok(x) {
        assert rs[i] == Ok({x});
      }
    }
  }

  /** The only exception `get_files` lets through is the KeyError of a missing "strings" section. */
  lemma GetFilesError(sections: Sections, key: string)
    requires GetFilesOf(sections, key).Fail?
    ensures GetFilesOf(sections, key).error == KeyError && !HasKey(sections, "strings")
  {
    var entries := Keys(Lookup(sections, key).value.data);
    var rs := FileNames(sections, entries);
    var i :| 0 <= i < |rs| && rs[i] == Fail(GetFilesOf(sections, key).error);
    assert FileName(sections, entries[i]).Fail?;
  }

  /** `get_files`: the loop adding one file per entry of the section. */
  method GetFiles(sections: Sections, key: string) returns (r: Result<set<string>>)
    ensures r == GetFilesOf(sections, key)
  {
    if StartsWith(key, "@") {
      return Ok({key[1..]});
    }
    if !HasKey(sections, key) {
      return Ok({});
    }
    var entries := Keys(Lookup(sections, key).value.data);
    ghost var rs := FileNames(sections, entries);
    var ret: set<string> := {};
    for i := 0 to |entries|
      invariant Union(rs[..i]) == Ok(ret)
    {
      UnionNext(rs, i, ret);
      var components := Split(entries[i], ",");
      var f := ExpandTokens(sections, Lower(components[0]));
      if f.Fail? {
        UnionFailPrefix(rs, i + 1);
        return Fail(f.error);
      }
      ret := ret + {f.value};
    }
    assert rs[..|entries|] == rs;
    return Ok(ret);
  }

  // ---------------------------------------------------------------------
  // Install sections: `get_install_info`

  /** The OS suffixes `get_install_info` looks for, in the order it tries them. */
  const Suffixes: seq<string> := [".nt", ".ntx86", ".ntia64", ".ntamd64"]

  /** The last of `suffixes` that occurs in `name`, without its dot. */
  function LastSuffix(name: string, suffixes: seq<string>): (r: Option<string>)
    requires forall k :: 0 <= k < |suffixes| ==> |suffixes[k]| >= 1
    ensures r.Some? ==> exists k :: 0 <= k < |suffixes| && Contains(name, suffixes[k]) && r.value == suffixes[k][1..]
    ensures r.None? <==> forall k :: 0 <= k < |suffixes| ==> !Contains(name, suffixes[k])
  {
    if suffixes == [] then None
    else
      var s := suffixes[|suffixes| - 1];
      if Contains(name, s) then Some(s[1..]) else LastSuffix(name, suffixes[..|suffixes| - 1])
  }

  /** `install_info.version`: the suffix of the section name, if any. */
  function SuffixVersion(name: string): Option<string>
  {
    LastSuffix(name, Suffixes)
  }

  /** The occurrences of a string contain the occurrences of its prefixes. */
  lemma ContainsPrefixOf(s: string, sub: string, k: nat)
    requires Contains(s, sub) && k <= |sub|
    ensures Contains(s, sub[..k])
  {
    var i := Find(s, sub);
    assert s[i..i + k] == sub[..k];
    assert OccursAt(s, sub[..k], i);
  }

  /**
   * Every suffix starts with ".nt", so a section name has a version exactly
   * when it contains ".nt"; the longer suffixes, tried later, win.
   */
  lemma SuffixVersionSpec(name: string)
    ensures SuffixVersion(name).Some? <==> Contains(name, ".nt")
    ensures Contains(name, ".ntamd64") ==> SuffixVersion(name) == Some("ntamd64")
    ensures !Contains(name, ".ntx86") && !Contains(name, ".ntia64") && !Contains(name, ".ntamd64") ==>
      SuffixVersion(name) == if Contains(name, ".nt") then Some("nt") else None
  {
    forall k | 0 <= k < |Suffixes| && Contains(name, Suffixes[k]) ensures Contains(name, ".nt")
    {
      assert Suffixes[k][..3] == ".nt";
      ContainsPrefixOf(name, Suffixes[k], 3);
    }
    assert Suffixes[0] == ".nt";
    assert Suffixes[..3] == [".nt", ".ntx86", ".ntia64"];
    assert Suffixes[..2] == [".nt", ".ntx86"];
    assert Suffixes[..1] == [".nt"];
  }

  /** The loop over the four suffixes. */
  method Suffix(name: string) returns (version: Option<string>)
    ensures version == SuffixVersion(name)
  {
    version := None;
    for k := 0 to |Suffixes|
      invariant version == LastSuffix(name, Suffixes[..k])
    {
      assert Suffixes[..k + 1][..k] == Suffixes[..k];
      if Contains(name, Suffixes[k]) {
        version := Some(Suffixes[k][1..]);
      }
    }
    assert Suffixes[..|Suffixes|] == Suffixes;
  }

  /** The file lists of a `CopyFiles` value, one result per comma-separated list. */
  function FileLists(sections: Sections, lists: seq<string>): (r: seq<Result<set<string>>>)
    ensures |r| == |lists| && forall i :: 0 <= i < |lists| ==> r[i] == GetFilesOf(sections, Strip(lists[i]))
  {
    seq(|lists|, i requires 0 <= i < |lists| => GetFilesOf(sections, Strip(lists[i])))
  }

  /** The `CopyFiles` lists of an install section, or none. */
  function CopyLists(data: Entries<string>): seq<string>
  {
    if HasKey(data, "copyfiles") then Split(Lookup(data, "copyfiles").value, ",") else []
  }

  /** The install information of one section: its copied files and its OS suffix. */
  function InstallInfoOf(sections: Sections, name: string, data: Entries<string>): (r: Result<InstallInfo>)
    ensures r.Ok? ==> r.value.version == SuffixVersion(name)
    ensures r.Ok? && !HasKey(data, "copyfiles") ==> r.value.copyFiles == {}
  {
    var files :- Union(FileLists(sections, CopyLists(data)));
    Ok(InstallInfo(files, SuffixVersion(name)))
  }

  /** The copied files are those of the lists named by `CopyFiles`. */
  lemma InstallInfoFiles(sections: Sections, name: string, data: Entries<string>, x: string)
    requires InstallInfoOf(sections, name, data).Ok?
    ensures var lists := CopyLists(data);
      x in InstallInfoOf(sections, name, data).value.copyFiles <==>
      exists i :: 0 <= i < |lists| && GetFilesOf(sections, Strip(lists[i])).Ok? && x in GetFilesOf(sections, Strip(lists[i])).value
  {
    var lists := CopyLists(data);
    var rs := FileLists(sections, lists);
    UnionSpec(rs, x);
    if i :| 0 <= i < |lists| && GetFilesOf(sections, Strip(lists[i])).Ok? && x in GetFilesOf(sections, Strip(lists[i])).value {
      assert rs[i] == GetFilesOf(sections, Strip(lists[i]));
    }
  }

  lemma InstallInfoError(sections: Sections, name: string, data: Entries<string>)
    requires InstallInfoOf(sections, name, data).Fail?
    ensures InstallInfoOf(sections, name, data).error == KeyError && !HasKey(sections, "strings")
  {
    CopyFilesError(sections, CopyLists(data));
  }

  lemma CopyFilesError(sections: Sections, lists: seq<string>)
    requires Union(FileLists(sections, lists)).Fail?
    ensures Union(FileLists(sections, lists)).error == KeyError && !HasKey(sections, "strings")
  {
    var rs := FileLists(sections, lists);
    var i :| 0 <= i < |rs| && rs[i] == Fail(Union(rs).error);
    GetFilesError(sections, Strip(lists[i]));
  }

  /** The loop over the comma-separated file lists of `CopyFiles`. */
  method CopyFiles(sections: Sections, lists: seq<string>) returns (r: Result<set<string>>)
    ensures r == Union(FileLists(sections, lists))
  {
    ghost var rs := FileLists(sections, lists);
    var copyFiles: set<string> := {};
    for i := 0 to |lists|
      invariant Union(rs[..i]) == Ok(copyFiles)
    {
      UnionNext(rs, i, copyFiles);
      var files := GetFiles(sections, Strip(lists[i]));
      if files.Fail? {
        UnionFailPrefix(rs, i + 1);
        return Fail(files.error);
      }
      copyFiles := copyFiles + files.value;
    }
    assert rs[..|lists|] == rs;
    return Ok(copyFiles);
  }

  /** One section's install information, as the body of the outer loop computes it. */
  method InstallInfoFor(sections: Sections, name: string, data: Entries<string>) returns (r: Result<InstallInfo>)
    ensures r == InstallInfoOf(sections, name, data)
  {
    var version := Suffix(name);
    var copyFiles := CopyFiles(sections, CopyLists(data));
    if copyFiles.Fail? {
      return Fail(copyFiles.error);
    }
    return Ok(InstallInfo(copyFiles.value, version));
  }

  /** The information of a section when its name starts with the prefix. */
  function InfoIfPrefixed(sections: Sections, prefix: string, e: Entry<InfSection>): (r: Result<Option<InstallInfo>>)
    ensures r.Ok? && r.value.Some? <==> StartsWith(e.folded, Lower(prefix)) && InstallInfoOf(sections, e.folded, e.value.data).Ok?
  {
    if !StartsWith(e.folded, Lower(prefix)) then Ok(None)
    else
      var info :- InstallInfoOf(sections, e.folded, e.value.data);
      Ok(Some(info))
  }

  function Infos(sections: Sections, prefix: string, es: Sections): (r: seq<Result<Option<InstallInfo>>>)
    ensures |r| == |es| && forall i :: 0 <= i < |es| ==> r[i] == InfoIfPrefixed(sections, prefix, es[i])
  {
    seq(|es|, i requires 0 <= i < |es| => InfoIfPrefixed(sections, prefix, es[i]))
  }

  function FoldedKeys<V>(es: Entries<V>): (r: seq<string>)
    ensures |r| == |es| && forall i :: 0 <= i < |es| ==> r[i] == es[i].folded
  {
    seq(|es|, i requires 0 <= i < |es| => es[i].folded)
  }

  /** `get_install_info`: one entry per section whose (lower-case) name starts with the key. */
  function GetInstallInfoOf(sections: Sections, key: string): (r: Result<map<string, InstallInfo>>)
  {
    Collect(FoldedKeys(sections), Infos(sections, key, sections))
  }

  lemma GetInstallInfoError(sections: Sections, key: string)
    requires GetInstallInfoOf(sections, key).Fail?
    ensures GetInstallInfoOf(sections, key).error == KeyError && !HasKey(sections, "strings")
  {
    var rs := Infos(sections, key, sections);
    var i :| 0 <= i < |rs| && rs[i] == Fail(GetInstallInfoOf(sections, key).error);
    InstallInfoError(sections, sections[i].folded, sections[i].value.data);
  }

  /** The sections described are exactly `prefixed_keys(key)`. */
  lemma GetInstallInfoKeys(sections: Sections, key: string)
    requires GetInstallInfoOf(sections, key).Ok?
    ensures GetInstallInfoOf(sections, key).value.Keys == PrefixedKeysOf(sections, key)
  {
    var keys, rs := FoldedKeys(sections), Infos(sections, key, sections);
    var m := GetInstallInfoOf(sections, key).value;
    forall k | k in m.Keys ensures k in PrefixedKeysOf(sections, key)
    {
      CollectKeys(keys, rs, k);
    }
    forall k | k in PrefixedKeysOf(sections, key) ensures k in m.Keys
    {
      var i :| 0 <= i < |sections| && sections[i].folded == k;
      assert rs[i].Ok?;
      CollectKeys(keys, rs, k);
    }
  }

  /** Each section described gets its own install information. */
  lemma GetInstallInfoValues(sections: Sections, key: string, i: nat)
    requires GetInstallInfoOf(sections, key).Ok? && KeysDistinct(sections)
    requires i < |sections| && StartsWith(sections[i].folded, Lower(key))
    ensures var m := GetInstallInfoOf(sections, key).value;
      sections[i].folded in m && Ok(m[sections[i].folded]) == InstallInfoOf(sections, sections[i].folded, sections[i].value.data)
  {
    var keys, rs := FoldedKeys(sections), Infos(sections, key, sections);
    assert rs[i].Ok?;
    CollectValues(keys, rs, i);
  }

  /** `get_install_info`: the loop over the sections the key is a prefix of. */
  method GetInstallInfo(sections: Sections, key: string) returns (r: Result<map<string, InstallInfo>>)
    ensures r == GetInstallInfoOf(sections, key)
  {
    var ret: map<string, InstallInfo> := map[];
    var prefix := Lower(key);
    for i := 0 to |sections|
      invariant InstalledUpTo(sections, key, i) == Ok(ret)
    {
      var next := InstallNext(sections, key, prefix, i, ret);
      if next.Fail? {
        InstallFail(sections, key, i + 1);
        return next;
      }
      ret := next.value;
    }
    InstallAll(sections, key);
    return Ok(ret);
  }

  /** The body of the loop of `get_install_info` for section `i`: `ret` with that section's entry, or the failure. */
  method InstallNext(sections: Sections, key: string, prefix: string, i: nat, ret: map<string, InstallInfo>)
    returns (r: Result<map<string, InstallInfo>>)
    requires prefix == Lower(key) && i < |sections| && InstalledUpTo(sections, key, i) == Ok(ret)
    ensures r == InstalledUpTo(sections, key, i + 1)
  {
    InstallStep(sections, key, i, ret);
    var fk := sections[i].folded;
    if StartsWith(fk, prefix) {
      var info := InstallInfoFor(sections, fk, sections[i].value.data);
      if info.Fail? {
        return Fail(info.error);
      }
      return Ok(ret[fk := info.value]);
    }
    return Ok(ret);
  }

  /** What the loop of `get_install_info` holds after the first `i` sections. */
  ghost function InstalledUpTo(sections: Sections, key: string, i: nat): Result<map<string, InstallInfo>>
    requires i <= |sections|
  {
    Collect(FoldedKeys(sections)[..i], Infos(sections, key, sections)[..i])
  }

  /** One more section: skipped, described, or the failure to describe it. */
  lemma InstallStep(sections: Sections, key: string, i: nat, acc: map<string, InstallInfo>)
    requires i < |sections| && InstalledUpTo(sections, key, i) == Ok(acc)
    ensures !StartsWith(sections[i].folded, Lower(key)) ==> InstalledUpTo(sections, key, i + 1) == Ok(acc)
    ensures var info := InstallInfoOf(sections, sections[i].folded, sections[i].value.data);
      StartsWith(sections[i].folded, Lower(key)) && info.Fail? ==> InstalledUpTo(sections, key, i + 1) == Fail(info.error)
    ensures var info := InstallInfoOf(sections, sections[i].folded, sections[i].value.data);
      StartsWith(sections[i].folded, Lower(key)) && info.Ok? ==>
        InstalledUpTo(sections, key, i + 1) == Ok(acc[sections[i].folded := info.value])
  {
    var keys, rs := FoldedKeys(sections), Infos(sections, key, sections);
    CollectNext(keys, rs, i, acc);
    assert rs[i] == InfoIfPrefixed(sections, key, sections[i]);
    assert keys[i] == sections[i].folded;
  }

  /** A failure part-way through is the failure of the whole loop. */
  lemma InstallFail(sections: Sections, key: string, i: nat)
    requires i <= |sections| && InstalledUpTo(sections, key, i).Fail?
    ensures GetInstallInfoOf(sections, key) == InstalledUpTo(sections, key, i)
  {
    CollectFailPrefix(FoldedKeys(sections), Infos(sections, key, sections), i);
  }

  /** After the last section the loop holds the whole result. */
  lemma InstallAll(sections: Sections, key: string)
    ensures InstalledUpTo(sections, key, |sections|) == GetInstallInfoOf(sections, key)
  {
    var keys, rs := FoldedKeys(sections), Infos(sections, key, sections);
    assert keys[..|sections|] == keys && rs[..|sections|] == rs;
  }

  // ---------------------------------------------------------------------
  // Results kept in a case-insensitive dict, `ret[key] = value` in order.

  /** Every `Some` pair stored in turn into an empty case-insensitive dict; or the first failure. */
  function StoreAll<V>(rs: seq<Result<Option<(string, V)>>>): (r: Result<Entries<V>>)
    ensures r.Ok? <==> forall i :: 0 <= i < |rs| ==> rs[i].Ok?
    ensures r.Fail? ==> exists i :: 0 <= i < |rs| && rs[i] == Fail(r.error)
    ensures r.Ok? ==> Folded(r.value) && KeysDistinct(r.value)
  {
    if rs == [] then Ok([])
    else
      var n := |rs| - 1;
      var before :- StoreAll(rs[..n]);
      var last :- rs[n];
      if last.None? then Ok(before) else Ok(Store(before, last.value.0, last.value.1))
  }

  /** The keys of the dict are those of the stored pairs, ignoring case. */
  lemma {:induction false} StoreAllKeys<V>(rs: seq<Result<Option<(string, V)>>>, k: string)
    requires StoreAll(rs).Ok?
    ensures k in LowerKeys(StoreAll(rs).value) <==> StoresKey(rs, k)
  {
    if rs == [] {
      assert StoreAll(rs) == Ok([]);
    } else {
      StoreAllStep(rs);
      StoreAllKeys(rs[..|rs| - 1], k);
      StoresKeyStep(rs, k);
    }
  }

  /** Some stored pair has a key that folds to `k`. */
  predicate StoresKey<V>(rs: seq<Result<Option<(string, V)>>>, k: string)
  {
    exists i :: 0 <= i < |rs| && rs[i].Ok? && rs[i].value.Some? && Lower(rs[i].value.value.0) == k
  }

  lemma StoresKeyStep<V>(rs: seq<Result<Option<(string, V)>>>, k: string)
    requires rs != []
    ensures var n := |rs| - 1;
      StoresKey(rs, k) <==> StoresKey(rs[..n], k) || (rs[n].Ok? && rs[n].value.Some? && Lower(rs[n].value.value.0) == k)
  {
    var n := |rs| - 1;
    var init := rs[..n];
    if StoresKey(init, k) {
      var i :| 0 <= i < |init| && init[i].Ok? && init[i].value.Some? && Lower(init[i].value.value.0) == k;
      assert init[i] == rs[i];
    }
    if StoresKey(rs, k) {
      var i :| 0 <= i < |rs| && rs[i].Ok? && rs[i].value.Some? && Lower(rs[i].value.value.0) == k;
      if i < n {
        assert init[i] == rs[i];
      }
    }
  }

  lemma StoreAllStep<V>(rs: seq<Result<Option<(string, V)>>>)
    requires rs != [] && StoreAll(rs).Ok?
    ensures var n := |rs| - 1;
      StoreAll(rs[..n]).Ok? && rs[n].Ok? &&
      StoreAll(rs).value == if rs[n].value.None? then StoreAll(rs[..n]).value
        else Store(StoreAll(rs[..n]).value, rs[n].value.value.0, rs[n].value.value.1)
  {
  }

  /** A key finds the value of the last pair stored under it. */
  lemma {:induction false} StoreAllLookup<V>(rs: seq<Result<Option<(string, V)>>>, i: nat, k: string)
    requires StoreAll(rs).Ok? && i < |rs|
    requires rs[i].Ok? && rs[i].value.Some? && Lower(rs[i].value.value.0) == Lower(k)
    requires forall j :: i < j < |rs| && rs[j].Ok? && rs[j].value.Some? ==> Lower(rs[j].value.value.0) != Lower(k)
    ensures Lookup(StoreAll(rs).value, k) == Ok(rs[i].value.value.1)
  {
    var n := |rs| - 1;
    var init := rs[..n];
    var before := StoreAll(init).value;
    if i == n {
      StoreLookup(before, rs[n].value.value.0, rs[n].value.value.1, k);
    } else {
      assert init[i] == rs[i];
      StoreAllLookup(init, i, k);
      if rs[n].value.Some? {
        StoreLookup(before, rs[n].value.value.0, rs[n].value.value.1, k);
      }
    }
  }

  lemma StoreAllNext<V>(rs: seq<Result<Option<(string, V)>>>, i: nat, acc: Entries<V>)
    requires i < |rs| && StoreAll(rs[..i]) == Ok(acc)
    ensures StoreAll(rs[..i + 1]) ==
      match rs[i]
      case Fail(e) => Fail(e)
      case Ok(None) => Ok(acc)
      case Ok(Some(p)) => Ok(Store(acc, p.0, p.1))
  {
    assert rs[..i + 1][..i] == rs[..i];
  }

  lemma {:induction false} StoreAllFailPrefix<V>(rs: seq<Result<Option<(string, V)>>>, k: nat)
    requires k <= |rs| && StoreAll(rs[..k]).Fail?
    ensures StoreAll(rs) == StoreAll(rs[..k])
    decreases |rs|
  {
    if k < |rs| {
      assert rs[..|rs| - 1][..k] == rs[..k];
      StoreAllFailPrefix(rs[..|rs| - 1], k);
    } else {
      assert rs[..k] == rs;
    }
  }

  /** A result paired with the key it is stored under. */
  function Keyed<V>(key: string, v: Result<V>): Result<Option<(string, V)>>
  {
    match v
    case Ok(x) => Ok(Some((key, x)))
    case Fail(e) => Fail(e)
  }

  /** The results of the lines of a section, each under the line's key. */
  function KeyedAll<V>(data: Entries<string>, vs: seq<Result<V>>): (r: seq<Result<Option<(string, V)>>>)
    requires |vs| == |data|
    ensures |r| == |data| && forall i :: 0 <= i < |data| ==> r[i] == Keyed(data[i].key, vs[i])
  {
    seq(|data|, i requires 0 <= i < |data| => Keyed(data[i].key, vs[i]))
  }

  /** Storing one result per line keeps exactly the section's keys. */
  lemma StoreKeyedKeys<V>(data: Entries<string>, vs: seq<Result<V>>)
    requires |vs| == |data| && Folded(data) && StoreAll(KeyedAll(data, vs)).Ok?
    ensures LowerKeys(StoreAll(KeyedAll(data, vs)).value) == LowerKeys(data)
  {
    var rs := KeyedAll(data, vs);
    var m := StoreAll(rs).value;
    forall k | k in LowerKeys(m) ensures k in LowerKeys(data)
    {
      StoreAllKeys(rs, k);
      var i :| 0 <= i < |rs| && rs[i].Ok? && rs[i].value.Some? && Lower(rs[i].value.value.0) == k;
      assert data[i].folded == k;
    }
    forall k | k in LowerKeys(data) ensures k in LowerKeys(m)
    {
      var i :| 0 <= i < |data| && data[i].folded == k;
      assert rs[i].Ok? && Lower(rs[i].value.value.0) == k;
      StoreAllKeys(rs, k);
    }
  }

  /** With the section's keys distinct, each line's result is found under its key. */
  lemma StoreKeyedLookup<V>(data: Entries<string>, vs: seq<Result<V>>, i: nat)
    requires |vs| == |data| && Folded(data) && KeysDistinct(data) && StoreAll(KeyedAll(data, vs)).Ok?
    requires i < |data|
    ensures Lookup(StoreAll(KeyedAll(data, vs)).value, data[i].key) == vs[i]
  {
    var rs := KeyedAll(data, vs);
    assert rs[i].Ok?;
    forall j | i < j < |rs| && rs[j].Ok? && rs[j].value.Some? ensures Lower(rs[j].value.value.0) != Lower(data[i].key)
    {
      assert data[j].folded != data[i].folded;
    }
    StoreAllLookup(rs, i, data[i].key);
  }

  /** The lines of a section, or none when the section is missing. */
  function SectionData(sections: Sections, name: string): (r: Entries<string>)
    ensures HasKey(sections, name) ==> r == Lookup(sections, name).value.data
    ensures !HasKey(sections, name) ==> r == []
  {
    match Lookup(sections, name)
    case Ok(section) => section.data
    case Fail(_) => []
  }

  // ---------------------------------------------------------------------
  // Models: `get_models`

  /** The section listing the models: `devKey.version` when a version is given, else `devKey`. */
  function ModelsKey(devKey: string, version: Option<string>): string
  {
    if version.Some? && version.value != [] then devKey + "." + version.value else devKey
  }

  /** The install section and hardware id of `install-section[,hw-id][,compatible-id...]`. */
  function Descriptors(value: string): (string, string)
  {
    var d := Split(value, ",");
    (Strip(d[0]), if |d| >= 2 then Strip(d[1]) else "")
  }

  /** The device of one model line, with the information of its install sections. */
  function ModelOf(sections: Sections, version: Option<string>, e: Entry<string>): (r: Result<Device>)
  {
    var name :- ExpandTokens(sections, e.key);
    var install := Descriptors(e.value).0;
    var device :- Create(name, install, Descriptors(e.value).1, version);
    var info :- GetInstallInfoOf(sections, install);
    Ok(device.(installInfo := Some(info)))
  }

  /**
   * The device of a model line is named by the expanded key, installed by
   * the first comma field, identified by the second, for the requested
   * version, and carries what `get_install_info` reports for its install
   * section.
   */
  lemma ModelOfSpec(sections: Sections, version: Option<string>, e: Entry<string>)
    requires ModelOf(sections, version, e).Ok?
    ensures var d := ModelOf(sections, version, e).value;
      var install := Descriptors(e.value).0;
      Ok(d.name) == ExpandTokens(sections, e.key) && d.installSection == install &&
      d.hardwareId == Descriptors(e.value).1 && d.version == version &&
      Ok(d.installInfo.value) == GetInstallInfoOf(sections, install)
  {
  }

  /** A model line fails only on a missing "strings" section or a malformed PCI/USB id. */
  lemma ModelOfError(sections: Sections, version: Option<string>, e: Entry<string>)
    requires ModelOf(sections, version, e).Fail?
    ensures ModelOf(sections, version, e).error == ValueError ||
      (ModelOf(sections, version, e).error == KeyError && !HasKey(sections, "strings"))
  {
    var install := Descriptors(e.value).0;
    if GetInstallInfoOf(sections, install).Fail? {
      GetInstallInfoError(sections, install);
    }
  }

  function ModelResults(sections: Sections, version: Option<string>, data: Entries<string>): (r: seq<Result<Device>>)
    ensures |r| == |data| && forall i :: 0 <= i < |data| ==> r[i] == ModelOf(sections, version, data[i])
  {
    seq(|data|, i requires 0 <= i < |data| => ModelOf(sections, version, data[i]))
  }

  /** `get_models`: the devices of a models section; none when the section is missing. */
  function GetModelsOf(sections: Sections, devKey: string, version: Option<string>): (r: Result<Entries<Device>>)
    ensures !HasKey(sections, ModelsKey(devKey, version)) ==> r == Ok([])
    ensures r.Ok? ==> Folded(r.value) && KeysDistinct(r.value)
  {
    var data := SectionData(sections, ModelsKey(devKey, version));
    StoreAll(KeyedAll(data, ModelResults(sections, version, data)))
  }

  /**
   * The devices returned are keyed exactly by the lines of the models
   * section, and each line's device is found under its key.
   */
  lemma GetModelsSpec(sections: Sections, devKey: string, version: Option<string>)
    requires GetModelsOf(sections, devKey, version).Ok?
    requires var data := SectionData(sections, ModelsKey(devKey, version));
      Folded(data) && KeysDistinct(data)
    ensures var data := SectionData(sections, ModelsKey(devKey, version));
      var m := GetModelsOf(sections, devKey, version).value;
      LowerKeys(m) == LowerKeys(data) &&
      forall i :: 0 <= i < |data| ==> Lookup(m, data[i].key) == ModelOf(sections, version, data[i])
  {
    var data := SectionData(sections, ModelsKey(devKey, version));
    var vs := ModelResults(sections, version, data);
    StoreKeyedKeys(data, vs);
    forall i | 0 <= i < |data|
      ensures Lookup(GetModelsOf(sections, devKey, version).value, data[i].key) == ModelOf(sections, version, data[i])
    {
      StoreKeyedLookup(data, vs, i);
    }
  }

  /** `get_models` fails only on a missing "strings" section or a malformed PCI/USB id. */
  lemma GetModelsError(sections: Sections, devKey: string, version: Option<string>)
    requires GetModelsOf(sections, devKey, version).Fail?
    ensures var e := GetModelsOf(sections, devKey, version).error;
      (e == KeyError && !HasKey(sections, "strings")) || e == ValueError
  {
    var data := SectionData(sections, ModelsKey(devKey, version));
    var rs := KeyedAll(data, ModelResults(sections, version, data));
    var i :| 0 <= i < |rs| && rs[i] == Fail(GetModelsOf(sections, devKey, version).error);
    ModelOfError(sections, version, data[i]);
  }

  /** The device of one model line, running the id and install-section loops. */
  method Model(sections: Sections, version: Option<string>, e: Entry<string>) returns (r: Result<Device>)
    ensures r == ModelOf(sections, version, e)
  {
    var name := ExpandTokens(sections, e.key);
    if name.Fail? {
      return Fail(name.error);
    }
    var descriptors := Split(e.value, ",");
    var install := Strip(descriptors[0]);
    var hardwareId := "";
    if |descriptors| >= 2 {
      hardwareId := Strip(descriptors[1]);
    }
    var device := CreateDevice(name.value, install, hardwareId, version);
    if device.Fail? {
      return Fail(device.error);
    }
    var info := GetInstallInfo(sections, install);
    if info.Fail? {
      return Fail(info.error);
    }
    return Ok(device.value.(installInfo := Some(info.value)));
  }

  /** `get_models`: the loop over the lines of the models section. */
  method GetModels(sections: Sections, devKey: string, version: Option<string>) returns (r: Result<Entries<Device>>)
    ensures r == GetModelsOf(sections, devKey, version)
  {
    var key := ModelsKey(devKey, version);
    if !HasKey(sections, key) {
      return Ok([]);
    }
    var data := Lookup(sections, key).value.data;
    ghost var rs := KeyedAll(data, ModelResults(sections, version, data));
    var ret: Entries<Device> := [];
    for i := 0 to |data|
      invariant StoreAll(rs[..i]) == Ok(ret)
    {
      StoreAllNext(rs, i, ret);
      var device := Model(sections, version, data[i]);
      if device.Fail? {
        StoreAllFailPrefix(rs, i + 1);
        return Fail(device.error);
      }
      ret := Store(ret, data[i].key, device.value);
    }
    assert rs[..|data|] == rs;
    return Ok(ret);
  }

  // ---------------------------------------------------------------------
  // Manufacturers: `get_manufacturers`

  /** A models section of a manufacturer, for one target OS version or for any (None). */
  datatype ModelSection = ModelSection(section: string, version: Option<string>)

  /** `has_manufacturers`. */
  predicate HasManufacturers(sections: Sections)
  {
    HasKey(sections, "manufacturer")
  }

  /**
   * The name of a manufacturer line: its key, or for a string key the string
   * it names; a string key naming "" (or an undefined string) skips the line.
   */
  function ManufacturerName(sections: Sections, key: string): (r: Result<Option<string>>)
  {
    var isKey :- IsStringKey(key);
    if !isKey then Ok(Some(key))
    else
      var name :- GetString(sections, key);
      if name == [] then Ok(None) else Ok(Some(name))
  }

  /** How the manufacturer name is found, and which lines are skipped. */
  lemma ManufacturerNameSpec(sections: Sections, key: string)
    ensures key == [] ==> ManufacturerName(sections, key) == Fail(IndexError)
    ensures key != [] && !(StartsWith(key, "%") && EndsWith(key, "%")) ==> ManufacturerName(sections, key) == Ok(Some(key))
    ensures var r := ManufacturerName(sections, key);
      r.Ok? && r.value.None? <==> StartsWith(key, "%") && EndsWith(key, "%") && GetString(sections, key) == Ok("")
    ensures var r := ManufacturerName(sections, key);
      r.Ok? && r.value.Some? ==> r.value.value != []
  {
  }

  /** A manufacturer line fails only on an empty key or a missing "strings" section. */
  lemma ManufacturerNameError(sections: Sections, key: string)
    requires ManufacturerName(sections, key).Fail?
    ensures var e := ManufacturerName(sections, key).error;
      (key == [] && e == IndexError) || (e == KeyError && !HasKey(sections, "strings"))
  {
  }

  /** `(section, version.strip())` for each version listed after the section. */
  function VersionsOf(section: string, versions: seq<string>): (r: seq<ModelSection>)
    ensures |r| == |versions|
    ensures forall i :: 0 <= i < |versions| ==> r[i] == ModelSection(section, Some(Strip(versions[i])))
  {
    seq(|versions|, i requires 0 <= i < |versions| => ModelSection(section, Some(Strip(versions[i]))))
  }

  /** The models sections of a manufacturer line `section[,version]...`. */
  function ModelSections(sections: Sections, value: string): seq<ModelSection>
  {
    var ms := Split(value, ",");
    if |ms| == 1 then [ModelSection(ms[0], None)]
    else VersionsOf(ms[0], ms[1..]) + if HasKey(sections, ms[0]) then [ModelSection(ms[0], None)] else []
  }

  /**
   * Every models section is the first comma field; each later field is a
   * version, stripped, in order; and the unversioned section is listed
   * last exactly when there are no versions or that section exists.
   */
  lemma ModelSectionsSpec(sections: Sections, value: string)
    ensures var ms := Split(value, ","); var r := ModelSections(sections, value);
      (forall i :: 0 <= i < |r| ==> r[i].section == ms[0]) &&
      (forall i :: 1 <= i < |ms| ==> r[i - 1].version == Some(Strip(ms[i]))) &&
      |r| == (if |ms| == 1 || HasKey(sections, ms[0]) then |ms| else |ms| - 1) &&
      (r[|r| - 1].version.None? <==> |ms| == 1 || HasKey(sections, ms[0])) &&
      (forall i :: 0 <= i < |r| - 1 ==> r[i].version.Some?)
  {
  }

  /** A line without a comma names one section, for any version. */
  lemma ModelSectionsSingle(sections: Sections, value: string)
    requires !Contains(value, ",")
    ensures ModelSections(sections, value) == [ModelSection(value, None)]
  {
    SplitContains(value, ",");
  }

  /** The loop collecting the versioned models sections. */
  method Versions(section: string, versions: seq<string>) returns (r: seq<ModelSection>)
    ensures r == VersionsOf(section, versions)
  {
    r := [];
    for i := 0 to |versions|
      invariant r == VersionsOf(section, versions[..i])
    {
      r := r + [ModelSection(section, Some(Strip(versions[i])))];
    }
    assert versions[..|versions|] == versions;
  }

  /** A value stored under a computed name: the name's failure, a skip, or the pair. */
  function Named<V>(name: Result<Option<string>>, v: V): Result<Option<(string, V)>>
  {
    match name
    case Fail(e) => Fail(e)
    case Ok(None) => Ok(None)
    case Ok(Some(n)) => Ok(Some((n, v)))
  }

  function NamedAll<V>(names: seq<Result<Option<string>>>, vs: seq<V>): (r: seq<Result<Option<(string, V)>>>)
    requires |names| == |vs|
    ensures |r| == |vs| && forall i :: 0 <= i < |vs| ==> r[i] == Named(names[i], vs[i])
  {
    seq(|vs|, i requires 0 <= i < |vs| => Named(names[i], vs[i]))
  }

  /** The names stored are those of the lines not skipped, ignoring case. */
  lemma StoreNamedKeys<V>(names: seq<Result<Option<string>>>, vs: seq<V>, k: string)
    requires |names| == |vs| && StoreAll(NamedAll(names, vs)).Ok?
    ensures k in LowerKeys(StoreAll(NamedAll(names, vs)).value) <==>
      exists i :: 0 <= i < |names| && names[i].Ok? && names[i].value.Some? && Lower(names[i].value.value) == k
  {
    var rs := NamedAll(names, vs);
    StoreAllKeys(rs, k);
    if i :| 0 <= i < |names| && names[i].Ok? && names[i].value.Some? && Lower(names[i].value.value) == k {
      assert rs[i].Ok? && rs[i].value.Some? && Lower(rs[i].value.value.0) == k;
    }
  }

  /** A name no other line shares (ignoring case) finds its line's value. */
  lemma StoreNamedLookup<V>(names: seq<Result<Option<string>>>, vs: seq<V>, i: nat)
    requires |names| == |vs| && StoreAll(NamedAll(names, vs)).Ok? && i < |names|
    requires names[i].Ok? && names[i].value.Some?
    requires forall j :: 0 <= j < |names| && j != i && names[j].Ok? && names[j].value.Some? ==>
      Lower(names[j].value.value) != Lower(names[i].value.value)
    ensures Lookup(StoreAll(NamedAll(names, vs)).value, names[i].value.value) == Ok(vs[i])
  {
    var rs := NamedAll(names, vs);
    StoreAllLookup(rs, i, names[i].value.value);
  }

  /** Only a name can fail. */
  lemma StoreNamedError<V>(names: seq<Result<Option<string>>>, vs: seq<V>)
    requires |names| == |vs| && StoreAll(NamedAll(names, vs)).Fail?
    ensures exists i :: 0 <= i < |names| && names[i] == Fail(StoreAll(NamedAll(names, vs)).error)
  {
    var rs := NamedAll(names, vs);
    var i :| 0 <= i < |rs| && rs[i] == Fail(StoreAll(rs).error);
    assert names[i] == Fail(StoreAll(rs).error);
  }

  /** The name of each manufacturer line. */
  function ManufacturerNames(sections: Sections, data: Entries<string>): (r: seq<Result<Option<string>>>)
    ensures |r| == |data| && forall i :: 0 <= i < |data| ==> r[i] == ManufacturerName(sections, data[i].key)
  {
    seq(|data|, i requires 0 <= i < |data| => ManufacturerName(sections, data[i].key))
  }

  /** The models sections of each manufacturer line. */
  function ModelSectionLists(sections: Sections, data: Entries<string>): (r: seq<seq<ModelSection>>)
    ensures |r| == |data| && forall i :: 0 <= i < |data| ==> r[i] == ModelSections(sections, data[i].value)
  {
    seq(|data|, i requires 0 <= i < |data| => ModelSections(sections, data[i].value))
  }

  /** `get_manufacturers`: manufacturer name => its models sections; none without [manufacturer]. */
  function GetManufacturersOf(sections: Sections): (r: Result<Entries<seq<ModelSection>>>)
    ensures !HasManufacturers(sections) ==> r == Ok([])
    ensures r.Ok? ==> Folded(r.value) && KeysDistinct(r.value)
  {
    var data := SectionData(sections, "manufacturer");
    StoreAll(NamedAll(ManufacturerNames(sections, data), ModelSectionLists(sections, data)))
  }

  /**
   * The manufacturers returned are the names of the lines not skipped,
   * ignoring case; a name no other line shares lists its own line's models
   * sections.
   */
  lemma GetManufacturersSpec(sections: Sections, k: string, i: nat)
    requires GetManufacturersOf(sections).Ok?
    ensures var data := SectionData(sections, "manufacturer");
      var names := ManufacturerNames(sections, data);
      k in LowerKeys(GetManufacturersOf(sections).value) <==>
      exists j :: 0 <= j < |names| && names[j].Ok? && names[j].value.Some? && Lower(names[j].value.value) == k
    ensures var data := SectionData(sections, "manufacturer");
      var names := ManufacturerNames(sections, data);
      i < |data| && names[i].Ok? && names[i].value.Some? &&
      (forall j :: 0 <= j < |names| && j != i && names[j].Ok? && names[j].value.Some? ==>
        Lower(names[j].value.value) != Lower(names[i].value.value)) ==>
      Lookup(GetManufacturersOf(sections).value, names[i].value.value) == Ok(ModelSections(sections, data[i].value))
  {
    var data := SectionData(sections, "manufacturer");
    var names, vs := ManufacturerNames(sections, data), ModelSectionLists(sections, data);
    StoreNamedKeys(names, vs, k);
    if i < |data| && names[i].Ok? && names[i].value.Some? &&
      forall j :: 0 <= j < |names| && j != i && names[j].Ok? && names[j].value.Some? ==>
        Lower(names[j].value.value) != Lower(names[i].value.value)
    {
      StoreNamedLookup(names, vs, i);
    }
  }

  /** Some line of the section has an empty key. */
  predicate HasEmptyKey(data: Entries<string>)
  {
    exists i :: 0 <= i < |data| && data[i].key == []
  }

  /** `get_manufacturers` fails only on an empty key or a missing "strings" section. */
  lemma GetManufacturersError(sections: Sections)
    requires GetManufacturersOf(sections).Fail?
    ensures var e := GetManufacturersOf(sections).error;
      (e == IndexError && HasEmptyKey(SectionData(sections, "manufacturer"))) || (e == KeyError && !HasKey(sections, "strings"))
  {
    var data := SectionData(sections, "manufacturer");
    var names, vs := ManufacturerNames(sections, data), ModelSectionLists(sections, data);
    StoreNamedError(names, vs);
    var e := GetManufacturersOf(sections).error;
    var i :| 0 <= i < |names| && names[i] == Fail(e);
    ManufacturerNameError(sections, data[i].key);
    if e == IndexError {
      assert data[i].key == [];
    }
  }

  /** The entry of one manufacturer line, running the versions loop. */
  method Manufacturer(sections: Sections, e: Entry<string>) returns (r: Result<Option<(string, seq<ModelSection>)>>)
    ensures r == Named(ManufacturerName(sections, e.key), ModelSections(sections, e.value))
  {
    var name := ManufacturerName(sections, e.key);
    if name.Fail? {
      return Fail(name.error);
    }
    if name.value.None? {
      return Ok(None);
    }
    var ms := Split(e.value, ",");
    if |ms| == 1 {
      return Ok(Some((name.value.value, [ModelSection(ms[0], None)])));
    }
    var versions := Versions(ms[0], ms[1..]);
    if HasKey(sections, ms[0]) {
      versions := versions + [ModelSection(ms[0], None)];
    }
    assert versions == ModelSections(sections, e.value);
    return Ok(Some((name.value.value, versions)));
  }

  /** `get_manufacturers`: nothing without [manufacturer], else the loop over its lines. */
  method GetManufacturers(sections: Sections) returns (r: Result<Entries<seq<ModelSection>>>)
    ensures r == GetManufacturersOf(sections)
  {
    if !HasManufacturers(sections) {
      return Ok([]);
    }
    r := StoreManufacturers(sections, Lookup(sections, "manufacturer").value.data);
  }

  /** The loop over the lines of [manufacturer]. */
  method StoreManufacturers(sections: Sections, data: Entries<string>) returns (r: Result<Entries<seq<ModelSection>>>)
    ensures r == StoreAll(NamedAll(ManufacturerNames(sections, data), ModelSectionLists(sections, data)))
  {
    ghost var rs := NamedAll(ManufacturerNames(sections, data), ModelSectionLists(sections, data));
    var ret: Entries<seq<ModelSection>> := [];
    for i := 0 to |data|
      invariant StoreAll(rs[..i]) == Ok(ret)
    {
      StoreAllNext(rs, i, ret);
      var m := Manufacturer(sections, data[i]);
      if m.Fail? {
        StoreAllFailPrefix(rs, i + 1);
        return Fail(m.error);
      }
      if m.value.Some? {
        ret := Store(ret, m.value.value.0, m.value.value.1);
      }
    }
    assert rs[..|data|] == rs;
    return Ok(ret);
  }
}
