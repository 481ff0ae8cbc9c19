// commands/image_build.py: the pure checks of the `image_build` command.
// The image templates (`images.json`) are a list of named entries, in the
// dictionary's iteration order; the make/KVM/ISO plumbing is not modelled.
module ImageBuild {
  import opened Wrappers

  /** One entry of `images.json`: its name, `image_group` and the `os.product_key` field if present. */
  datatype ImageTemplate = ImageTemplate(name: string, imageGroup: string, productKey: Option<string>)

  /** `Command.image_groups`. */
  const ImageGroups: seq<string> := ["windows", "linux"]

  function Names(templates: seq<ImageTemplate>): (r: seq<string>)
    ensures |r| == |templates| && forall i :: 0 <= i < |templates| ==> r[i] == templates[i].name
  {
    if templates == [] then [] else [templates[0].name] + Names(templates[1..])
  }

  /** The names of the templates in group `g`, in iteration order. */
  function GroupMembers(templates: seq<ImageTemplate>, g: string): (r: seq<string>)
    ensures forall n :: n in r <==> exists i :: 0 <= i < |templates| && templates[i].name == n && templates[i].imageGroup == g
    ensures |r| <= |templates|
  {
    if templates == [] then []
    else
      var rest := GroupMembers(templates[1..], g);
      assert forall i :: 1 <= i < |templates| ==> templates[1..][i - 1] == templates[i];
      if templates[0].imageGroup == g then [templates[0].name] + rest else rest
  }

  /**
   * What `_translate_image_name` returns: every name for "all", the members
   * of a group for a group name, the name itself for a template name, and
   * CommandError for anything else.
   */
  function Translation(templates: seq<ImageTemplate>, imageName: string): (r: Result<seq<string>>)
    ensures imageName == "all" ==> r == Ok(Names(templates))
    ensures imageName != "all" && imageName in ImageGroups ==> r == Ok(GroupMembers(templates, imageName))
    ensures imageName != "all" && imageName !in ImageGroups ==>
      (r.Ok? <==> imageName in Names(templates)) && (r.Ok? ==> r.value == [imageName]) &&
      (r.Fail? ==> r.error == CommandError)
  {
    if imageName == "all" then Ok(Names(templates))
    else if imageName in ImageGroups then Ok(GroupMembers(templates, imageName))
    else if imageName in Names(templates) then Ok([imageName])
    else Fail(CommandError)
  }

  /** `_translate_image_name`, with its loop over the templates for a group name. */
  method TranslateImageName(templates: seq<ImageTemplate>, imageName: string) returns (r: Result<seq<string>>)
    ensures r == Translation(templates, imageName)
  {
    if imageName == "all" {
      return Ok(Names(templates));
    } else if imageName in ImageGroups {
      var ret: seq<string> := [];
      assert templates[0..] == templates;
      assert [] + GroupMembers(templates, imageName) == GroupMembers(templates, imageName);
      for i := 0 to |templates|
        invariant ret + GroupMembers(templates[i..], imageName) == GroupMembers(templates, imageName)
      {
        assert templates[i..][1..] == templates[i + 1..] && templates[i..][0] == templates[i];
        ghost var rest := GroupMembers(templates[i + 1..], imageName);
        if templates[i].imageGroup == imageName {
          assert (ret + [templates[i].name]) + rest == ret + ([templates[i].name] + rest);
          ret := ret + [templates[i].name];
        }
      }
      assert templates[|templates|..] == [];
      assert ret + [] == ret;
      return Ok(ret);
    } else if imageName in Names(templates) {
      return Ok([imageName]);
    } else {
      return Fail(CommandError);
    }
  }

  /** Every name a translation returns is the name of a template. */
  lemma TranslationNamesTemplates(templates: seq<ImageTemplate>, imageName: string)
    ensures Translation(templates, imageName).Ok? ==>
      forall n :: n in Translation(templates, imageName).value ==> n in Names(templates)
  {
    var r := Translation(templates, imageName);
    if r.Ok? {
      forall n | n in r.value ensures n in Names(templates)
      {
        if imageName != "all" && imageName in ImageGroups {
          var i :| 0 <= i < |templates| && templates[i].name == n && templates[i].imageGroup == imageName;
          assert Names(templates)[i] == n;
        }
      }
    }
  }

  /** The template of a given name, when there is one. */
  function Lookup(templates: seq<ImageTemplate>, name: string): (r: Option<ImageTemplate>)
    ensures r.Some? <==> name in Names(templates)
    ensures r.Some? ==> r.value in templates && r.value.name == name
  {
    if templates == [] then None
    else if templates[0].name == name then Some(templates[0])
    else
      var r := Lookup(templates[1..], name);
      assert Names(templates) == [templates[0].name] + Names(templates[1..]);
      r
  }

  /** An image needs a product key when its OS has the field, and the field is then empty. */
  predicate MissingProductKey(t: ImageTemplate)
  {
    t.productKey.Some? && t.productKey.value == []
  }

  /**
   * What `_check_product_keys` does for a list of image names, in order:
   * an unknown name is a KeyError, an image whose product key is present
   * but empty a CommandError.
   */
  function ProductKeysOutcome(templates: seq<ImageTemplate>, imageNames: seq<string>): (r: Outcome)
    ensures r == Pass <==> forall i :: 0 <= i < |imageNames| ==>
      Lookup(templates, imageNames[i]).Some? && !MissingProductKey(Lookup(templates, imageNames[i]).value)
    ensures r.Raise? ==> r.error == KeyError || r.error == CommandError
  {
    if imageNames == [] then Pass
    else
      var t := Lookup(templates, imageNames[0]);
      var rest := ProductKeysOutcome(templates, imageNames[1..]);
      assert forall i :: 1 <= i < |imageNames| ==> imageNames[1..][i - 1] == imageNames[i];
      if t.None? then Raise(KeyError)
      else if MissingProductKey(t.value) then Raise(CommandError)
      else rest
  }

  /** `_check_product_keys`: the loop over the image names. */
  method CheckProductKeys(templates: seq<ImageTemplate>, imageNames: seq<string>) returns (o: Outcome)
    ensures o == ProductKeysOutcome(templates, imageNames)
  {
    for i := 0 to |imageNames|
      invariant ProductKeysOutcome(templates, imageNames[i..]) == ProductKeysOutcome(templates, imageNames)
    {
      assert imageNames[i..][1..] == imageNames[i + 1..];
      var t := Lookup(templates, imageNames[i]);
      if t.None? {
        return Raise(KeyError);
      }
      if t.value.productKey.Some? && t.value.productKey.value == [] {
        return Raise(CommandError);
      }
    }
    assert imageNames[|imageNames|..] == [];
    return Pass;
  }

  /** The names a translation returns never make the product-key check raise KeyError. */
  lemma TranslatedNamesKnown(templates: seq<ImageTemplate>, imageName: string)
    requires Translation(templates, imageName).Ok?
    ensures ProductKeysOutcome(templates, Translation(templates, imageName).value) != Raise(KeyError)
  {
    TranslationNamesTemplates(templates, imageName);
    NoKeyError(templates, Translation(templates, imageName).value);
  }

  lemma {:induction false} NoKeyError(templates: seq<ImageTemplate>, names: seq<string>)
    requires forall n :: n in names ==> n in Names(templates)
    ensures ProductKeysOutcome(templates, names) != Raise(KeyError)
  {
    if names != [] {
      assert names[0] in names;
      NoKeyError(templates, names[1..]);
    }
  }

  /** `_check_core_num`: the warning is printed unless the core count is between 1 and 10. */
  predicate CoreNumWarning(value: int)
  {
    value <= 0 || value > 10
  }
}
