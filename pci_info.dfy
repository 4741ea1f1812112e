/**
  `getFunctionInfo`: list a function's sysfs directory and fill in a
  `Function` from the attribute files it recognises.
*/
module PciFunctionInfo {
  import opened Wrappers
  import opened GoStrconv
  import opened Util
  import opened Sysfs
  import opened PciTypes

  /** The file names that set a field; `irq` and `local_cpus` are not among them. */
  const AttributeNames: set<string> :=
    {"class", "vendor", "device", "enable", "revision", "subsystem_vendor", "subsystem_device"}

  /** `fileString(filepath.Join(dir, name))`. */
  function AttributeText(fs: FileSystem, dir: Path, name: string): string {
    FileString(ReadFile(fs, Join(dir, name)))
  }

  /** One pass of the `switch` on an entry name. */
  function ApplyAttribute(fs: FileSystem, dir: Path, fun: Function, name: string): Function {
    var text := AttributeText(fs, dir, name);
    if name == "class" then fun.(pciClass := text)
    else if name == "vendor" then fun.(vendor := text)
    else if name == "device" then fun.(device := text)
    else if name == "enable" then
      (match ParseUint16(text)
       case Some(n) => fun.(enable := n)
       case None => fun)
    else if name == "revision" then fun.(revision := text)
    else if name == "subsystem_vendor" then fun.(subsystemVendor := text)
    else if name == "subsystem_device" then fun.(subsystemDevice := text)
    else fun
  }

  /** The `switch` applied to each listed name in turn. */
  function ApplyAttributes(fs: FileSystem, dir: Path, fun: Function, names: seq<string>): Function
    decreases |names|
  {
    if names == [] then fun else ApplyAttributes(fs, dir, ApplyAttribute(fs, dir, fun, names[0]), names[1..])
  }

  /** What `getFunctionInfo` returns: the listing error, or the filled-in function. */
  function FunctionInfo(fs: FileSystem, dir: Path): Result<Function, ListError> {
    match ReadDir(fs, dir)
    case None => Failure(ListError(dir))
    case Some(names) => Success(ApplyAttributes(fs, dir, EmptyFunction, names))
  }

  /**
    The error half of `getFunctionInfo`: it fails exactly when the directory
    cannot be listed, with the error of that listing.
  */
  lemma FunctionInfoListing(fs: FileSystem, dir: Path)
    ensures FunctionInfo(fs, dir).Failure? <==> dir !in fs.dirs
    ensures FunctionInfo(fs, dir).Failure? ==> FunctionInfo(fs, dir).error == ListError(dir)
  {
  }

  /** The field a string attribute file sets: its text if it is listed, otherwise what it was. */
  function StringField(fs: FileSystem, dir: Path, names: seq<string>, name: string, before: string): string {
    if name in names then AttributeText(fs, dir, name) else before
  }

  /** `enable`: the parsed value if the file is listed and parses, otherwise what it was. */
  function EnableField(fs: FileSystem, dir: Path, names: seq<string>, before: uint16): uint16 {
    if "enable" in names && ParseUint16(AttributeText(fs, dir, "enable")).Some?
    then ParseUint16(AttributeText(fs, dir, "enable")).value
    else before
  }

  /** One pass of the switch, field by field. */
  lemma ApplyAttributeStep(fs: FileSystem, dir: Path, fun: Function, name: string)
    ensures var r := ApplyAttribute(fs, dir, fun, name); var text := AttributeText(fs, dir, name);
      && r.number == fun.number && r.irq == fun.irq && r.localCpus == fun.localCpus
      && r.pciClass == (if name == "class" then text else fun.pciClass)
      && r.vendor == (if name == "vendor" then text else fun.vendor)
      && r.device == (if name == "device" then text else fun.device)
      && r.revision == (if name == "revision" then text else fun.revision)
      && r.subsystemVendor == (if name == "subsystem_vendor" then text else fun.subsystemVendor)
      && r.subsystemDevice == (if name == "subsystem_device" then text else fun.subsystemDevice)
      && r.enable == (if name == "enable" && ParseUint16(text).Some? then ParseUint16(text).value else fun.enable)
  {
  }

  /** A string field over a listing, split at its first name. */
  lemma StringFieldStep(fs: FileSystem, dir: Path, names: seq<string>, name: string, before: string, after: string)
    requires names != []
    requires after == if names[0] == name then AttributeText(fs, dir, name) else before
    ensures StringField(fs, dir, names[1..], name, after) == StringField(fs, dir, names, name, before)
  {
    assert name in names <==> names[0] == name || name in names[1..] by {
      assert names == [names[0]] + names[1..];
    }
  }

  /** `enable` over a listing, split at its first name. */
  lemma EnableFieldStep(fs: FileSystem, dir: Path, names: seq<string>, before: uint16, after: uint16)
    requires names != []
    requires var text := AttributeText(fs, dir, "enable");
      after == if names[0] == "enable" && ParseUint16(text).Some? then ParseUint16(text).value else before
    ensures EnableField(fs, dir, names[1..], after) == EnableField(fs, dir, names, before)
  {
    assert "enable" in names <==> names[0] == "enable" || "enable" in names[1..] by {
      assert names == [names[0]] + names[1..];
    }
  }

  /**
    The fields after the switch has run over a listing: each recognised file
    that is listed sets its own field to that file's text (`enable` only when
    it parses), and nothing else changes — in particular `Number`, `Irq` and
    `LocalCpus`. The order and repetition of names do not matter.
  */
  lemma {:induction false} ApplyAttributesFields(fs: FileSystem, dir: Path, fun: Function, names: seq<string>)
    ensures var r := ApplyAttributes(fs, dir, fun, names);
      && r.number == fun.number && r.irq == fun.irq && r.localCpus == fun.localCpus
      && r.pciClass == StringField(fs, dir, names, "class", fun.pciClass)
      && r.vendor == StringField(fs, dir, names, "vendor", fun.vendor)
      && r.device == StringField(fs, dir, names, "device", fun.device)
      && r.revision == StringField(fs, dir, names, "revision", fun.revision)
      && r.subsystemVendor == StringField(fs, dir, names, "subsystem_vendor", fun.subsystemVendor)
      && r.subsystemDevice == StringField(fs, dir, names, "subsystem_device", fun.subsystemDevice)
      && r.enable == EnableField(fs, dir, names, fun.enable)
    decreases |names|
  {
    if names != [] {
      var n := names[0];
      var f1 := ApplyAttribute(fs, dir, fun, n);
      ApplyAttributeStep(fs, dir, fun, n);
      ApplyAttributesFields(fs, dir, f1, names[1..]);
      StringFieldStep(fs, dir, names, "class", fun.pciClass, f1.pciClass);
      StringFieldStep(fs, dir, names, "vendor", fun.vendor, f1.vendor);
      StringFieldStep(fs, dir, names, "device", fun.device, f1.device);
      StringFieldStep(fs, dir, names, "revision", fun.revision, f1.revision);
      StringFieldStep(fs, dir, names, "subsystem_vendor", fun.subsystemVendor, f1.subsystemVendor);
      StringFieldStep(fs, dir, names, "subsystem_device", fun.subsystemDevice, f1.subsystemDevice);
      EnableFieldStep(fs, dir, names, fun.enable, f1.enable);
    } else {
      assert forall n :: n !in names;
    }
  }

  /** A name outside the recognised set leaves the function as it was. */
  lemma UnknownAttributeIgnored(fs: FileSystem, dir: Path, fun: Function, name: string)
    requires name !in AttributeNames
    ensures ApplyAttribute(fs, dir, fun, name) == fun
  {
  }

  /**
    An unrecognised file anywhere in the listing (`irq`, `local_cpus`,
    `driver_override`, ...) makes no difference to the result.
  */
  lemma UnknownAttributeInListing(fs: FileSystem, dir: Path, fun: Function,
                                  pre: seq<string>, name: string, post: seq<string>)
    requires name !in AttributeNames
    ensures ApplyAttributes(fs, dir, fun, pre + [name] + post) == ApplyAttributes(fs, dir, fun, pre + post)
  {
    var with := pre + [name] + post;
    var without := pre + post;
    assert forall n :: n in AttributeNames ==> (n in with <==> n in without) by {
      forall n | n in AttributeNames ensures n in with <==> n in without {
        if n in with {
          var k :| 0 <= k < |with| && with[k] == n;
          if k < |pre| { assert without[k] == n; } else { assert without[k - 1] == n; }
        }
        if n in without {
          var k :| 0 <= k < |without| && without[k] == n;
          if k < |pre| { assert with[k] == n; } else { assert with[k + 1] == n; }
        }
      }
    }
    ApplyAttributesFields(fs, dir, fun, with);
    ApplyAttributesFields(fs, dir, fun, without);
  }

  /**
    `getFunctionInfo`: on a listing failure, the empty function and the error;
    otherwise the function filled in by the switch over the listed names.
  */
  method GetFunctionInfo(fs: FileSystem, path: Path) returns (fun: Function, err: Option<ListError>)
    ensures err.Some? <==> path !in fs.dirs
    ensures err.Some? ==> err.value == ListError(path) && fun == EmptyFunction
    ensures err.None? ==> FunctionInfo(fs, path) == Success(fun)
  {
    fun := EmptyFunction;
    var infoFiles := ReadDir(fs, path);
    if infoFiles.None? {
      return fun, Some(ListError(path));
    }
    var names := infoFiles.value;
    for i := 0 to |names|
      invariant ApplyAttributes(fs, path, fun, names[i..]) == ApplyAttributes(fs, path, EmptyFunction, names)
    {
      var f := names[i];
      assert names[i..][1..] == names[i + 1..];
      match f {
        case "class" =>
          fun := fun.(pciClass := FileString(ReadFile(fs, Join(path, f))));
        case "vendor" =>
          fun := fun.(vendor := FileString(ReadFile(fs, Join(path, f))));
        case "device" =>
          fun := fun.(device := FileString(ReadFile(fs, Join(path, f))));
        case "enable" =>
          var enable := ParseUint16(FileString(ReadFile(fs, Join(path, f))));
          if enable.Some? {
            fun := fun.(enable := enable.value);
          }
        case "revision" =>
          fun := fun.(revision := FileString(ReadFile(fs, Join(path, f))));
        case "subsystem_vendor" =>
          fun := fun.(subsystemVendor := FileString(ReadFile(fs, Join(path, f))));
        case "subsystem_device" =>
          fun := fun.(subsystemDevice := FileString(ReadFile(fs, Join(path, f))));
        case _ =>
      }
    }
    assert names[|names|..] == [];
    return fun, None;
  }

  /**
    The function `getFunctionInfo` returns for a listable directory: each
    recognised field is the trimmed text of its file when that file is listed
    and empty otherwise, `Enable` is the parsed value or 0, and `Number`, `Irq`
    and `LocalCpus` stay empty.
  */
  lemma FunctionInfoFields(fs: FileSystem, dir: Path)
    requires dir in fs.dirs
    ensures FunctionInfo(fs, dir).Success?
    ensures var r := FunctionInfo(fs, dir).value; var names := fs.dirs[dir];
      && r.number == "" && r.irq == "" && r.localCpus == ""
      && r.pciClass == StringField(fs, dir, names, "class", "")
      && r.vendor == StringField(fs, dir, names, "vendor", "")
      && r.device == StringField(fs, dir, names, "device", "")
      && r.revision == StringField(fs, dir, names, "revision", "")
      && r.subsystemVendor == StringField(fs, dir, names, "subsystem_vendor", "")
      && r.subsystemDevice == StringField(fs, dir, names, "subsystem_device", "")
      && r.enable == EnableField(fs, dir, names, 0)
  {
    ApplyAttributesFields(fs, dir, EmptyFunction, fs.dirs[dir]);
  }

  /**
    An attribute file that is missing or unreadable reads as "": a listed
    `vendor` file that cannot be read leaves `Vendor` empty, and an `enable`
    file that cannot be read leaves `Enable` at 0.
  */
  lemma UnreadableAttributes(fs: FileSystem, dir: Path)
    requires dir in fs.dirs
    requires Join(dir, "vendor") !in fs.files && Join(dir, "enable") !in fs.files
    ensures FunctionInfo(fs, dir).Success?
    ensures FunctionInfo(fs, dir).value.vendor == ""
    ensures FunctionInfo(fs, dir).value.enable == 0
  {
    FunctionInfoFields(fs, dir);
    GoStrconv.ParseUint16Examples();
    assert ParseUint16("") == None;
  }

  /** A listed `enable` file holding already-trimmed text sets `Enable` to its value, or leaves 0. */
  lemma EnableFromText(fs: FileSystem, dir: Path, text: string)
    requires dir in fs.dirs && "enable" in fs.dirs[dir]
    requires ReadFile(fs, Join(dir, "enable")) == Some(text) && GoStrings.NoSurroundingSpace(text)
    ensures FunctionInfo(fs, dir).Success?
    ensures FunctionInfo(fs, dir).value.enable == if ParseUint16(text).Some? then ParseUint16(text).value else 0
  {
    FunctionInfoFields(fs, dir);
    FileStringKeepsTrimmed(text);
  }

  /** An `enable` file reading `1` gives 1; one reading `abc` or `70000` gives 0. */
  lemma EnableExamples(fs: FileSystem, dir: Path)
    requires dir in fs.dirs && "enable" in fs.dirs[dir]
    ensures ReadFile(fs, Join(dir, "enable")) == Some("1") ==> FunctionInfo(fs, dir).value.enable == 1
    ensures ReadFile(fs, Join(dir, "enable")) == Some("abc") ==> FunctionInfo(fs, dir).value.enable == 0
    ensures ReadFile(fs, Join(dir, "enable")) == Some("70000") ==> FunctionInfo(fs, dir).value.enable == 0
  {
    GoStrconv.ParseUint16Examples();
    var r := ReadFile(fs, Join(dir, "enable"));
    if r == Some("1") {
      EnableFromText(fs, dir, "1");
    } else if r == Some("abc") {
      EnableFromText(fs, dir, "abc");
    } else if r == Some("70000") {
      EnableFromText(fs, dir, "70000");
    }
  }
}
