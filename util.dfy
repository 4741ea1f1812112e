/** util.go: best-effort reading of one-line attribute files. */
module Util {
  import opened Wrappers
  import opened GoStrings

  /**
    `fileString`: the trimmed text of a file, or "" when it cannot be read.
    `contents` is what the read returned: `None` for any read failure.
  */
  function FileString(contents: Option<string>): (r: string)
    ensures NoSurroundingSpace(r)
    ensures contents.None? ==> r == ""
    ensures contents.Some? ==> IsTrimmedCore(contents.value, r)
  {
    match contents
    case None => ""
    case Some(data) => TrimSpace(data)
  }

  /**
    What a successful read yields is fixed by the two postconditions above:
    any whitespace-free-ended core of the contents is the result.
  */
  lemma FileStringCharacterised(data: string, r: string)
    requires NoSurroundingSpace(r) && IsTrimmedCore(data, r)
    ensures FileString(Some(data)) == r
  {
    TrimSpaceUnique(data, r);
  }

  /** Contents without surrounding whitespace come back unchanged. */
  lemma FileStringKeepsTrimmed(data: string)
    requires NoSurroundingSpace(data)
    ensures FileString(Some(data)) == data
  {
    TrimSpaceKeepsTrimmed(data);
  }

  /** Reading a file whose contents are an earlier result gives that result again. */
  lemma FileStringIdempotent(contents: Option<string>)
    ensures FileString(Some(FileString(contents))) == FileString(contents)
  {
    TrimSpaceKeepsTrimmed(FileString(contents));
  }

  /** A sysfs attribute with its trailing newline: `"0x8086\n"` reads as `"0x8086"`. */
  lemma FileStringExample()
    ensures FileString(Some("0x8086\n")) == "0x8086"
  {
    var s := "0x8086\n";
    assert AllSpace(s[..0]) && AllSpace(s[6..]);
    assert s[0..6] == "0x8086";
    TrimSpaceAt(s, 0, 6);
  }
}
