# pci-info in Dafny

A Dafny model of the PCI enumeration in `pciinfo`. The model walks a
sysfs-style tree: `/sys/devices/pci<DOMAIN>:<BUS>` directories hold
`<DOMAIN>:<BUS>:<DEVICE>.<FUNCTION>` entries. From them it builds the nested
domain → bus → device → function maps. For each function it fills in the
attribute fields read from the one-line files in that function's directory.

The filesystem is an input value (`Sysfs.FileSystem`). It maps every listable
directory to its entry names, in the order `ioutil.ReadDir` returns them, and
every readable file to its contents. A path absent from a map is a listing or
read failure.

The modules follow the Go code:

- `GoStrings` and `GoStrconv` model the parts of the Go standard library the
  code relies on: `strings.HasPrefix`, `strings.Split`, `strings.TrimSpace`
  and `strconv.ParseUint(s, 10, 16)`.
- `Util` models `fileString` (`util.go`).
- `PciTypes` models the four node types and the three in-place steps of the
  insertion: create the bus when absent, create the device when absent, store
  the function.
- `PciNames` models the slicing of root entries and function entries.
- `PciFunctionInfo` models `getFunctionInfo`. `GetFunctionInfo` is its loop,
  proved against the function `FunctionInfo`.
- `PciEnumerate` models `enumeratePci`:
  - `EnumeratePci` runs the outer loop.
  - `ScanDomainDir` runs the inner loop.
  - `AddFunctionEntry` runs the body of the inner loop.
  - All three are proved against the functions `Enumerate`, `ScanFunctions`
    and `FunctionEntryStep`.

Nodes are values held in maps. The Go code keeps `*Bus` and `*Device` pointers
and changes them in place. The methods get the same effect by writing each
new bus and device back into its parent as soon as it is created. So when a
function directory cannot be listed, the returned tree holds the new bus and
device, exactly as the shared pointers make them visible in Go.

The code has no skip path for malformed function-entry names, and the model
follows the code. `strings.Split(name, ":")[1:]` at pci.go:115 cannot fail,
but the indexes `busEtcStrings[0]` (pci.go:116) and `busEtcStrings[1]`
(pci.go:121) panic on a name with fewer than three `:`-parts, and
`devFuncStrings[1]` (pci.go:131) panics on a third part without `.` once that
entry's directory has been listed. The model rules such names out with the
precondition `WellFormedFixture`; "## Left out" says which harmless trees this
also excludes. The code replaces a domain wholesale when a later root entry
has the same number (pci.go:106), and the model does the same.

## Model

| member | source | states |
|---|---|---|
| GoStrings.HasPrefixCharacterised | pci.go:104 | `strings.HasPrefix(s, p)` holds exactly when `s` is `p` followed by the rest of `s` |
| GoStrings.Split | pci.go:105 | `strings.Split` on one character: at least one part, no part contains the separator, and joining the parts with the separator gives the input back |
| GoStrings.SplitJoin | pci.go:115 | Round trip: splitting the join of separator-free parts returns those parts |
| GoStrings.SplitMoreThanOne | pci.go:121 | The split has more than one part exactly when the separator occurs in the text |
| GoStrings.TrimSpace | util.go:15 | The result has no whitespace at either end, and it is a contiguous piece of the input with only whitespace cut from each end |
| GoStrings.TrimSpaceUnique | util.go:15 | Every core of the input cut down to non-whitespace ends equals `TrimSpace` of it, so the two postconditions fix the result |
| GoStrings.TrimSpaceKeepsTrimmed | util.go:15 | Text without surrounding whitespace is returned unchanged |
| GoStrings.TrimSpaceIdempotent | util.go:15 | Trimming twice equals trimming once |
| GoStrconv.ParseDigits | pci.go:75 | The digit loop of `strconv.ParseUint`, reading left to right and failing at the first non-digit or as soon as the value passes 65535, succeeds exactly when the rest of the text is all digits and the whole value is at most 65535, and then yields that value |
| GoStrconv.ParseUint16 | pci.go:75 | `strconv.ParseUint(s, 10, 16)` succeeds exactly when the text is a non-empty run of ASCII digits whose value is at most 65535, and then yields that value |
| GoStrconv.DecimalValuePrefix | pci.go:75 | The digits read so far are worth no more than the whole numeral, so failing early on overflow rejects exactly the numerals above 65535 |
| GoStrconv.DecimalValueOfFormat | pci.go:75 | The printed numeral of any natural number reads back as that number |
| GoStrconv.ParseFormatRoundTrip | pci.go:75-76 | Every `uint16` printed in decimal parses back to itself |
| GoStrconv.ParseRejectsOutOfRange | pci.go:75 | A numeral above 65535 is rejected, not truncated |
| GoStrconv.ParseUint16Examples | pci.go:75 | `"1"` parses to 1; `"abc"` and `"70000"` are refused |
| Util.FileString | util.go:9-16 | A read failure gives `""`. A successful read gives a trimmed core of the contents, with no surrounding whitespace |
| Util.FileStringCharacterised | util.go:15 | Any whitespace-free-ended core of the contents, with only whitespace cut away, is what `fileString` returns |
| Util.FileStringKeepsTrimmed | util.go:15 | Contents without surrounding whitespace come back unchanged |
| Util.FileStringIdempotent | util.go:9-16 | Feeding a result back in as file contents gives the same result |
| Util.FileStringExample | util.go:15 | `"0x8086\n"` reads as `"0x8086"` |
| PciTypes.WithBus | pci.go:116-120 | The bus exists afterwards. An existing bus is kept as it was. A missing bus is created empty and numbered after its key. No other bus appears |
| PciTypes.WithDevice | pci.go:121-126 | The same for the device inside an existing bus. Every other node keeps its contents |
| PciTypes.WithAncestors | pci.go:115-126 | Bus and device exist afterwards. Exactly those two nodes may be added. Every stored function stays where it was. Buses and devices already present keep their numbers. Consistent numbering is preserved |
| PciTypes.PutFunction | pci.go:131-132 | Afterwards the function at its address is the new one, replacing any earlier one. Every other address keeps its function. No node appears, and buses and devices already present keep their numbers. Numbering stays consistent when the function is numbered after its key |
| PciTypes.InsertFunction | pci.go:115-132 | Ancestors are created or reused, the address holds the new function, and nothing else changes. Buses and devices already present keep their numbers |
| PciTypes.TwoFunctionsShareDevice | pci.go:116-126 | Inserting `00:1f.0` and `00:1f.1` into an empty domain gives one bus, one device and the two functions |
| PciNames.DomainId | pci.go:104-105 | The domain id contains no `:`. The name is `pci` followed by the id, and the id is followed by either `:` or the end of the name |
| PciNames.DomainIdOf | pci.go:104-105 | Converse: `pci` + id + (empty or `:`…) is a domain entry whose id is that id |
| PciNames.DomainIdExample | pci.go:104-105 | `pci0000:00` gives `0000` |
| PciNames.ParseFunctionEntry | pci.go:115-121 | Bus, device and function are separator-free substrings. The name reads `<head>:<bus>:<device>.<func>`, followed by nothing or by `:` or `.` and the rest |
| PciNames.ParseFunctionEntryOf | pci.go:115-121 | Converse: any name of that shape is well formed and parses to exactly those three parts |
| PciNames.ParseFunctionEntryExample | pci.go:115-121 | `0000:00:1f.3` gives bus `00`, device `1f`, function `3` |
| PciFunctionInfo.ApplyAttributesFields | pci.go:65-91 | After the switch over a listing, each of the six text fields holds its file's `fileString` when that file is listed and is otherwise unchanged. `Enable` is set only when the listed `enable` file parses. `Number`, `Irq` and `LocalCpus` never change |
| PciFunctionInfo.ApplyAttributeStep | pci.go:67-90 | One pass of the switch (`ApplyAttribute`): the named field takes the file's `fileString`, `enable` only when it parses, and every other field, `Number`, `Irq` and `LocalCpus` included, is unchanged |
| PciFunctionInfo.FunctionInfoListing | pci.go:61-63 | `getFunctionInfo` (`FunctionInfo`, through `ReadDir`) fails exactly when the directory cannot be listed, with that listing's error |
| PciFunctionInfo.UnknownAttributeIgnored | pci.go:67-90 | A name outside the seven recognised ones, `irq` and `local_cpus` included, leaves the function unchanged |
| PciFunctionInfo.UnknownAttributeInListing | pci.go:65-91 | An unrecognised entry anywhere in a listing does not change the result |
| PciFunctionInfo.GetFunctionInfo | pci.go:59-93 | The error is set exactly when the directory cannot be listed; the function is then empty. Otherwise the error is nil and the loop's function equals the specification `FunctionInfo` |
| PciFunctionInfo.FunctionInfoFields | pci.go:59-93 | Starting from `EmptyFunction` (`&Function{}`, pci.go:60), for a listable directory, each field is its file's text or empty, `Enable` is the parsed value or 0, and `Number`, `Irq` and `LocalCpus` are empty |
| PciFunctionInfo.UnreadableAttributes | pci.go:69-77 | Through `ReadFile` and `fileString` (util.go:10-13), a listed `vendor` or `enable` file that cannot be read leaves `Vendor` empty and `Enable` at 0 |
| PciFunctionInfo.EnableFromText | pci.go:74-77 | A trimmed `enable` text sets `Enable` to its parsed value, or leaves 0 when the parse fails |
| PciFunctionInfo.EnableExamples | pci.go:74-77 | `enable` holding `1` gives 1; holding `abc` or `70000` gives 0 |
| PciEnumerate.FunctionEntryStepEffect | pci.go:115-132 | `FunctionEntryStep`, one function entry: it creates or reuses its bus and device, and no other node appears. If its directory can be listed, the function, numbered after the entry, is stored at its address, replacing any earlier one, and every other address is kept. If not, the listing error is returned with the new bus and device kept and no function added |
| PciEnumerate.ScanFunctions | pci.go:112-134 | The domain keeps its number and consistent numbering. A returned error names a directory that cannot be listed |
| PciEnumerate.ScanFunctionsKeeps | pci.go:112-134 | A stored function is never removed by later entries |
| PciEnumerate.ScanFunctionsComplete | pci.go:112-134 | Without an error, every entry prefixed by the domain id has a function at its address |
| PciEnumerate.ScanFunctionsSound | pci.go:112-134 | Only entries passing `HasPrefix` at pci.go:114 add functions: every function in the result was already there or comes from an entry prefixed by the domain id |
| PciEnumerate.ScanFunctionsOthersKeep | pci.go:112-134 | Entries whose address differs from `a` leave the function at `a` as it was |
| PciEnumerate.ScanFunctionsLastWins | pci.go:131-132 | After a loop without an error, the function at an address is the one read from the last entry with that address, numbered after the entry; earlier ones are overwritten |
| PciEnumerate.ScanFunctionsFirstError | pci.go:112-134 | When the inner loop fails, the error names the directory of the first prefixed entry that cannot be listed. Every prefixed entry before it could be listed. The result equals that of the loop cut just after the failing entry, so later entries are never read |
| PciEnumerate.ScanFunctionsDevicesSound | pci.go:112-126 | Only entries prefixed by the domain number create devices. Every device in the result was already there or has the bus and device numbers of such an entry |
| PciEnumerate.ScanFunctionsBusesSound | pci.go:112-120 | Only entries prefixed by the domain number create buses. Every bus in the result was already there or is the bus of such an entry |
| PciEnumerate.ScanFunctionsSucceeds | pci.go:127-130 | The inner loop ends without an error exactly when every prefixed entry's directory can be listed |
| PciEnumerate.DomainStep | pci.go:104-134 | Through `ReadDir` at pci.go:107, a `pci` entry stores a fresh, bus-less domain under its id, replacing any earlier one, and keeps every other domain. If its directory cannot be listed, the error is returned with that empty domain in place. Otherwise the domain is the scan of its directory |
| PciEnumerate.ScanRoot | pci.go:102-136 | Domains are never removed. Consistent numbering is preserved. An error names an unlistable directory |
| PciEnumerate.Enumerate | pci.go:95-138 | At all four levels every node's number equals its key. An error names a directory that cannot be listed |
| PciEnumerate.ScanRootSucceeds | pci.go:102-136 | The outer loop ends without an error exactly when every domain directory and every function directory it visits can be listed |
| PciEnumerate.EnumerateSucceeds | pci.go:95-138 | The enumeration returns a nil error exactly when the root, every `pci` domain directory and every function directory inside one can be listed |
| PciEnumerate.AddFunctionEntry | pci.go:115-132 | The body of the inner loop: only the entry's domain changes, and it changes as `FunctionEntryStep` says, error included |
| PciEnumerate.ScanDomainDir | pci.go:112-134 | The inner loop: only the scanned domain changes, and the new domain and the error are those of `ScanFunctions` |
| PciEnumerate.EnumeratePci | pci.go:95-138 | The method returns what `Enumerate` specifies, with every node numbered after its key. A root listing failure gives an empty map and that error. Any error names a directory that cannot be listed |
| PciEnumerate.ScanRootKeepsOtherDomains | pci.go:102-136 | Root entries that name other domains leave a domain untouched |
| PciEnumerate.ScanRootKeysSound | pci.go:104-106 | Only root entries passing `IsDomainEntry` (`HasPrefix(name, "pci")`) add a domain, under their own number: every domain in the result was already there or is named by such an entry |
| PciEnumerate.ScanRootFirstError | pci.go:102-136 | When the outer loop fails, the error comes from the first `pci` root entry whose directory, or one of whose function directories, cannot be listed. Every root entry before it could be listed. The result equals that of the loop cut just after that entry, so later root entries are never read |
| PciEnumerate.EnumerateKeysSound | pci.go:95-106 | Every domain `enumeratePci` returns is named by a `pci` entry of the root listing |
| PciEnumerate.LastDomainEntryWins | pci.go:106 | After a successful scan, a domain is exactly what the last root entry with its id built from a fresh, bus-less domain. Earlier buses are discarded |
| PciEnumerate.EnumerateSingleFunction | pci.go:95-138 | A tree with one `pci` entry holding one function entry enumerates to one domain, one bus, one device and that function, with a nil error |

## Left out

- `Dump` (pci.go:140-157): it only prints the maps in Go's random map order.
- `DumpHuman` and `getVendorString` (pci.go:159-166): empty stubs.
- `spewFile` (util.go:18-21) and the `irq`, `local_cpus` and `resource` cases of the switch: they are commented out in the source. The model therefore leaves `Irq` and `LocalCpus` empty.
- Real I/O. `ioutil.ReadDir` and `ioutil.ReadFile` are lookups in the input `FileSystem`. The file contents are already decoded characters rather than bytes. An error is identified only by the path it concerns.
- `filepath.Join`: paths are the tree `SysDevices | Join(dir, name)`. Path cleaning (`..`, doubled separators) is not modelled.
- The order of entries: `ioutil.ReadDir` sorts names. The model takes each listing in the order given, and every result is proved for any order.
- Pointer identity and aliasing of `*Domain`, `*Bus`, `*Device` and `*Function`. Each node sits in exactly one map slot, so nothing observable depends on identity.
- Runtime panics on malformed names. The indexes at pci.go:116, 121 and 131 are ruled out by preconditions instead: `WellFormedFunctionEntry` and `WellFormedFixture`. The slices at pci.go:105 and 115 cannot fail: `HasPrefix(name, "pci")` guarantees three characters, and `strings.Split` never returns an empty slice.
- WellFormedFixture is stronger than what Go needs to return without a panic. It demands well-formed prefixed names in every listable `pci` directory under the root. Go slices only the entries it reaches, so the precondition also excludes trees Go handles normally: entries after the first listing failure, directories of `pci` names absent from the root listing, and a name with three `:`-parts but no `.` whose directory cannot be listed (Go returns the error at pci.go:127-129 before the index at 131). The model says nothing about those trees.
- JSON tags (pci.go:18-26): no serializer exists in the code.
- `unicode.IsSpace` is written out as its fixed set of code points. This set is Go's whitespace: the six ASCII spaces, U+0085, U+00A0, U+1680, U+2000–U+200A, U+2028, U+2029, U+202F, U+205F and U+3000.
