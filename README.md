# PCI bus driver core: configuration accessor, bus numbering, pruning and resource allocation

This project models and verifies the core of the PCI bus driver's `PciLib.c`
(`IntelFrameworkModulePkg/Bus/Pci/PciBusDxe`). It has four parts.

- **The width-compensating configuration accessor.**
  - Some devices only accept configuration accesses of one particular width, and some need register values fixed up. The bus driver keeps two tables of incompatible-device records for them. `ReadConfigData` and `WriteConfigData` consult the access-width table. When it has a record, they split or widen the access, with a read-modify-write where the record asks for a wider access than the caller's.
  - `UpdateConfigData` applies a register-value record's AND/OR masks.
  - `GetPciDeviceDeviceInfo` fetches the identity the tables are keyed by: vendor, device, revision and subsystem IDs.
  - `PciIncompatibilityCheckRead/Write` run the accessor over `Count` units.
  - `PciRootBridgeIoRead/Write` and `PciIoRead/Write` choose between the checked path and the plain protocol call according to the bits of the support mask.
- **`PciScanBus`.** The depth-first walk over devices 0–31 and functions 0–7. It gives every bridge its secondary and subordinate bus numbers. It threads the two 8-bit counters `*SubBusNumber` and `*PaddedBusRange` through the recursion, including the hot-plug bus padding.
- **`RemoveRejectedPciDevices`.** Unlinks every device the hot-plug platform rejects from its bridge's child list. It recurses through PCI-to-PCI bridges.
- **The control of `PciHostBridgeResourceAllocator`.**
  - For each root bridge it builds one root resource node per resource type and enlarges the Mem32 node for option ROMs on the first attempt. It then submits the nodes to the host bridge.
  - With hot-plug support, a rejection releases the pools and the allocation is retried with `ReAllocate` set.
  - After acceptance it hands the granted bases to option-ROM processing and resource programming.

## How the model is built

- **Modules.** The modules follow the file's structure:
  - `EfiStatus` (status.dfy);
  - `Bits` (bits.dfy): byte images of the 64-bit buffers;
  - `Transport` (transport.dfy): the configuration transport as a class over a byte map, with an injected fault oracle and a log of every access;
  - `Quirks` (quirks.dfy): `UpdateConfigData` and `GetPciDeviceDeviceInfo`, both pure;
  - `ConfigAccess` (config_access.dfy): `ReadConfigData` and `WriteConfigData`, with their `while (TRUE)` loops as methods;
  - `AccessLemmas` (access_lemmas.dfy);
  - `CheckedAccess` (check_access.dfy): the Count loops and the four wrappers;
  - `BusScan` (bus_scan.dfy);
  - `DeviceTree` (device_tree.dfy);
  - `Allocator` (allocator.dfy).
- **Imperative code against a specification function.** Each imperative routine is a method proved equal to a recursive specification function of the old state. The properties are proved as lemmas about that function. Examples:
  - `ReadLoop` against `ReadWalk`;
  - `WriteLoop` against `WriteWalk`;
  - `ReadUnits` against `CheckReadLoop`;
  - `BusScanner.PciScanBus` against `ScanBus`;
  - `RemoveRejectedPciDevices` against `Pruned`/`RemovedIds`;
  - `ResourceAllocator.PciHostBridgeResourceAllocator` against `Allocate`, which clears ReAllocate and the pools and runs `AllocateFrom`.
- **Injected functions.** The two quirk tables (`PciRegisterAccessCheck`, `PciRegisterUpdateCheck`) are injected total functions returning a status and a record. The transport's verdict on each access (`Fault`) is injected too.
- **Behaviour modelled as written.**
  - The write fix-up of the read-modify-write path is looked up at `AccessAddress * 0xff`. `WriteFixupOffset` shows that its low byte names the register written only at offsets 0 and 128.
  - `ReadConfigData` refuses a width other than 8, 16 or 32 bits only after its physical reads.
  - On the access-width path, `ReadConfigData` hands back the bytes at the aligned address, not at `Offset`. `MisalignedByteReadReturnsRegisterZero` shows the consequence, and "## Findings" records the write-then-read round trip it breaks.
  - `GetPciDeviceDeviceInfo` masks the revision ID with `0xF` when it reads it from configuration space, but copies all 8 bits from a header snapshot. `DeviceInfoPathsAgree` states exactly when the two paths agree.
  - When a root-bridge handle fails to resolve, or when `GetProposedResources` fails (PciLib.c:231, 437, 456, 556, 569), the allocator returns at once without releasing the pools. `SubmitFrom`, `ProposedFrom` and `ProgramFrom` keep them.
  - `WriteConfigData` merges the caller's value into the read-back Data only for 8- and 16-bit widths: its switch has no 32-bit case. A 32-bit write under a record asking for 64-bit accesses drops the caller's 32 bits: its status, configuration space and accesses do not depend on them (`DwordUnderQwordIgnoresCaller`). Whenever an access-width read record applies at AccessAddress, the 64-bit read-back fails: with a failing read's status, or with UNSUPPORTED once its reads go through (PciLib.c:1459-1460). The write then returns that status and writes nothing (1635-1637). A write that succeeds, is served by one unit and has no register-value records for the register writes back exactly the bytes it read (`DwordUnderQwordRewritesReadBack`). A successful read-back alone does not make the write succeed: the 64-bit write can still fail (PciLib.c:1678-1679), and an Offset % 8 of 5 to 7 needs a second unit.

## Model

| member | source | states |
|---|---|---|
| Quirks.UpdateConfigData | IntelFrameworkModulePkg/Bus/Pci/PciBusDxe/PciLib.c:1511-1562 | Without a register-value record, the buffer is left as it is and the lookup's status is returned. With a record, the result is Success for 8-, 16- and 32-bit widths and UNSUPPORTED otherwise, and a wider width leaves the buffer unchanged. |
| Quirks.UpdateConfigDataIsFixup | IntelFrameworkModulePkg/Bus/Pci/PciBusDxe/PciLib.c:1530-1558 | With a record at width 8, 16 or 32 bits, the word becomes `(v & (AndValue >> 8*(Offset&3))) \| (OrValue >> 8*(Offset&3))` inside the width mask and stays as the caller's outside it. Each mask is skipped when it is VALUE_NOCARE. |
| Quirks.ApplyMasksIsAndOr | IntelFrameworkModulePkg/Bus/Pci/PciBusDxe/PciLib.c:1533-1542 | The two conditional mask steps equal one AND followed by one OR. A VALUE_NOCARE mask becomes all ones (AND) or zero (OR). |
| Quirks.MergeLowIsMasked | IntelFrameworkModulePkg/Bus/Pci/PciBusDxe/PciLib.c:1544-1554 | The 8-, 16- or 32-bit store into the buffer takes the new bits inside the width mask and keeps the buffer's bits outside it. |
| Quirks.UpdateConfigDataSetsOrBits | IntelFrameworkModulePkg/Bus/Pci/PciBusDxe/PciLib.c:1540-1554 | With a record, every bit of the shifted OR mask that lies inside the access width is set in the result. |
| Quirks.UpdateConfigDataAndsOtherBits | IntelFrameworkModulePkg/Bus/Pci/PciBusDxe/PciLib.c:1536-1554 | With a record, a bit inside the width and outside the OR mask is the caller's bit ANDed with the shifted AND mask. |
| Quirks.UpdateConfigDataKeepsHighBits | IntelFrameworkModulePkg/Bus/Pci/PciBusDxe/PciLib.c:1544-1554 | With a record, the bits above the access width are the caller's. |
| Quirks.UpdateConfigDataIdempotent | IntelFrameworkModulePkg/Bus/Pci/PciBusDxe/PciLib.c:1530-1561 | Applying the fix-up to its own result changes nothing: the status and the word are the same. |
| Quirks.UpdateConfigDataIgnoresHighBits | IntelFrameworkModulePkg/Bus/Pci/PciBusDxe/PciLib.c:1536-1554 | With a record, the bits written back inside the width depend only on the caller's bits inside the width. Memory past a narrow buffer cannot leak in. |
| Quirks.DecodeInfo | IntelFrameworkModulePkg/Bus/Pci/PciBusDxe/PciLib.c:1817 | The revision ID decoded from dword 8 is at most 0xF. |
| Quirks.DeviceInfoDecoded | IntelFrameworkModulePkg/Bus/Pci/PciBusDxe/PciLib.c:1773-1840 | With a snapshot, its fields are the identity. Without one, a successful result had a vendor ID other than 0xFFFF and is the decoding of the dwords at + 0, + 8 and + 0x2C. |
| Quirks.DeviceInfoErrors | IntelFrameworkModulePkg/Bus/Pci/PciBusDxe/PciLib.c:1786-1829 | The read path fails exactly when one of the three reads fails or the vendor ID is 0xFFFF. After a good first read, the error is NOT_FOUND or the status of a later read. |
| Quirks.DeviceInfoSameForFunction | IntelFrameworkModulePkg/Bus/Pci/PciBusDxe/PciLib.c:1786 | Two offsets in the same 256-byte function space give the same identity. |
| Quirks.AbsentDeviceNotFound | IntelFrameworkModulePkg/Bus/Pci/PciBusDxe/PciLib.c:1786-1801 | When the two vendor ID bytes at the function's base read 0xFF and the first read goes through, the result is NOT_FOUND. |
| Quirks.DeviceInfoPathsAgree | IntelFrameworkModulePkg/Bus/Pci/PciBusDxe/PciLib.c:1817-1837 | The identity decoded from registers equals the one copied from a snapshot of the same registers exactly when the revision ID is below 16. |
| ConfigAccess.AccessAddress | IntelFrameworkModulePkg/Bus/Pci/PciBusDxe/PciLib.c:1391 | AccessAddress, `Offset & ~((1 << AccessWidth) - 1)`, is at most Offset, less than one access size below it, and a multiple of the access size (the same computation is at line 1621 for writes). |
| ConfigAccess.StartPlan | IntelFrameworkModulePkg/Bus/Pci/PciBusDxe/PciLib.c:1385-1389 | A record whose width is VALUE_NOCARE keeps the caller's width. |
| ConfigAccess.Advance | IntelFrameworkModulePkg/Bus/Pci/PciBusDxe/PciLib.c:1432-1447 | While the register offset is below the record's EndOffset, the record and the access width stay the same. |
| ConfigAccess.ReadWalkCovers | IntelFrameworkModulePkg/Bus/Pci/PciBusDxe/PciLib.c:1397-1448 | The loop's reads start at the given address and form an unbroken run up to `Offset + 2^Width`. Each read starts where the previous one stopped. Every read but the last went through. The status is the verdict on the last read. |
| ConfigAccess.CoversSpan | IntelFrameworkModulePkg/Bus/Pci/PciBusDxe/PciLib.c:1421-1428 | Every read of such a run lies between the first address and `Offset + 2^Width`, and each starts at the previous one's stop. |
| ConfigAccess.CoversVerdicts | IntelFrameworkModulePkg/Bus/Pci/PciBusDxe/PciLib.c:1417-1428 | In such a run every read but the last succeeded and stopped short of the end. A last read that succeeded reached the end. |
| ConfigAccess.ReadConfig | IntelFrameworkModulePkg/Bus/Pci/PciBusDxe/PciLib.c:1355-1491 | Success delivers exactly 2^Width bytes, for a width of at most 64 bits. Failure delivers nothing. At least one physical read is made. |
| ConfigAccess.ReadLoop | IntelFrameworkModulePkg/Bus/Pci/PciBusDxe/PciLib.c:1397-1448 | The `while (TRUE)` read loop makes ReadWalk's reads in order and returns its status. On success the bytes it gathers at `Pointer` are the configuration bytes from the aligned start up to at least `Offset + 2^Width`, however many there are. Configuration space is unchanged. |
| ConfigAccess.ReadConfigData | IntelFrameworkModulePkg/Bus/Pci/PciBusDxe/PciLib.c:1355-1491 | On a transport, the status, the bytes returned and the reads made are ReadConfig's. Configuration space is unchanged. |
| ConfigAccess.Fix | IntelFrameworkModulePkg/Bus/Pci/PciBusDxe/PciLib.c:1641-1657 | UpdateConfigData on Data touches only its low 32 bits, and changes nothing without a record. |
| ConfigAccess.MergeLaneBytes | IntelFrameworkModulePkg/Bus/Pci/PciBusDxe/PciLib.c:1643-1652 | The merged Data holds the caller's 8 or 16 bits at byte `Offset - AccessAddress`, and every other byte is the read-back value's. |
| ConfigAccess.Prepare | IntelFrameworkModulePkg/Bus/Pci/PciBusDxe/PciLib.c:1629-1658 | When the access width is not wider than the caller's, there is no read-back and Data is unchanged. Otherwise the reads are those of the read-back `ReadConfigData (AccessWidth, AccessAddress)`; a failed read-back returns its status with Data unchanged, and a successful one gives Success. |
| ConfigAccess.WriteConfig | IntelFrameworkModulePkg/Bus/Pci/PciBusDxe/PciLib.c:1584-1740 | At least one physical access is made. |
| ConfigAccess.PrepareData | IntelFrameworkModulePkg/Bus/Pci/PciBusDxe/PciLib.c:1629-1658 | The read-modify-write block on a transport: its status, Data and reads are Prepare's. Configuration space is unchanged. |
| ConfigAccess.WriteUnit | IntelFrameworkModulePkg/Bus/Pci/PciBusDxe/PciLib.c:1629-1680 | One pass of the write loop. If Prepare fails, its status and reads. Otherwise one write of 2^AccessWidth bytes of the prepared Data at AccessAddress. |
| ConfigAccess.WriteLoop | IntelFrameworkModulePkg/Bus/Pci/PciBusDxe/PciLib.c:1627-1711 | The `while (TRUE)` write loop leaves the status, configuration space and accesses of WriteWalk. |
| ConfigAccess.WriteConfigData | IntelFrameworkModulePkg/Bus/Pci/PciBusDxe/PciLib.c:1584-1740 | On a transport, the status, configuration space and accesses are WriteConfig's. |
| AccessLemmas.ReadConfigTiles | IntelFrameworkModulePkg/Bus/Pci/PciBusDxe/PciLib.c:1379-1464 | On the access-width path the first read is at Offset rounded down to the record's access size, and the reads tile the registers up to `Offset + 2^Width`. A failing last read's status is returned. Otherwise the result is Success for 8/16/32 bits and UNSUPPORTED after the reads. |
| AccessLemmas.ReadConfigReturns | IntelFrameworkModulePkg/Bus/Pci/PciBusDxe/PciLib.c:1379-1490 | A successful read returns, on the access-width path, an 8-, 16- or 32-bit width and the 2^Width bytes from Offset rounded down to the record's access size; on the direct path, the 2^Width bytes at Offset. |
| AccessLemmas.ReadWalkOverrunsTempBuffer | IntelFrameworkModulePkg/Bus/Pci/PciBusDxe/PciLib.c:1369-1428 | A successful 32-bit read at a register 5 bytes past a 64-bit boundary, under a record asking for 64-bit reads, makes a first read of 8 bytes at `Offset - 5` and at least one more, so its reads cover at least 9 bytes from where `Pointer` starts. |
| AccessLemmas.AlignedQuirkReadIsDirect | IntelFrameworkModulePkg/Bus/Pci/PciBusDxe/PciLib.c:1391-1458 | When Offset is aligned to the record's access size, a successful quirked read returns the bytes a direct read returns. |
| AccessLemmas.MisalignedByteReadReturnsRegisterZero | IntelFrameworkModulePkg/Bus/Pci/PciBusDxe/PciLib.c:1391-1452 | A byte read at register 1 under a 32-bit record returns the byte of register 0. |
| AccessLemmas.WriteThenReadDirect | IntelFrameworkModulePkg/Bus/Pci/PciBusDxe/PciLib.c:1721-1736 | Without access-width records, a register written and then read back holds the caller's 2^Width bytes. |
| AccessLemmas.MissingValueRecordIsTransparent | IntelFrameworkModulePkg/Bus/Pci/PciBusDxe/PciLib.c:1530-1561 | Without a register-value record, the fix-up leaves every Data image as it is. |
| AccessLemmas.QuirkedWriteMergesLane | IntelFrameworkModulePkg/Bus/Pci/PciBusDxe/PciLib.c:1629-1658 | For an 8- or 16-bit write through a wider access, the read-back succeeded. The unit written holds the caller's bytes at `Offset - AccessAddress` and the read-back, fixed-up value everywhere else. |
| AccessLemmas.WriteWalkCovers | IntelFrameworkModulePkg/Bus/Pci/PciBusDxe/PciLib.c:1627-1711 | From any address, the write loop's writes start with one unit of the current access width there and tile the registers up to `Offset + 2^Width`. Every write but the last went through. The status is Success exactly when the last write went through and reached the end; otherwise it is the failing write's or read-back's status. Configuration space changes only under writes that went through. |
| AccessLemmas.WriteConfigTiles | IntelFrameworkModulePkg/Bus/Pci/PciBusDxe/PciLib.c:1611-1711 | The same for the whole access-width path of WriteConfigData: the first write is a unit of the record's access size at Offset rounded down to it. |
| AccessLemmas.SingleUnitWrite | IntelFrameworkModulePkg/Bus/Pci/PciBusDxe/PciLib.c:1627-1690 | A successful write served by one unit stores the low 2^AccessWidth bytes of the prepared Data at AccessAddress. |
| AccessLemmas.QuirkedWriteThenRead | IntelFrameworkModulePkg/Bus/Pci/PciBusDxe/PciLib.c:1391-1460 | The write of QuirkedWriteStoresCaller, read back at the same width at an Offset aligned for the read record (or with no read record), returns the caller's 2^Width bytes. |
| AccessLemmas.MisalignedWriteThenReadMissesCaller | IntelFrameworkModulePkg/Bus/Pci/PciBusDxe/PciLib.c:1391-1460 | A byte written to register 1 under 32-bit read and write records and read back as a byte returns the byte register 0 held before the write, which differs from the caller's byte whenever register 0 held another value. |
| AccessLemmas.ShiftedReadAfterQuirkedWrite | IntelFrameworkModulePkg/Bus/Pci/PciBusDxe/PciLib.c:1391-1460 | With the copy-out taken from Offset (ShiftedReadConfig), the write of QuirkedWriteStoresCaller read back at the same width returns the caller's bytes at every Offset whose unit fits in one access. |
| ConfigAccess.ShiftedReadConfig | IntelFrameworkModulePkg/Bus/Pci/PciBusDxe/PciLib.c:1449-1460 | The corrected read: the same reads and status as ReadConfig, and on success the 2^Width bytes at Offset. |
| AccessLemmas.QuirkedWriteStoresCaller | IntelFrameworkModulePkg/Bus/Pci/PciBusDxe/PciLib.c:1627-1690 | An 8- or 16-bit write through a wider single unit, with no write record, that succeeds: the read-back succeeded, the 2^Width bytes at Offset are the caller's, and the unit's other bytes are the read-back after the read fix-up. |
| AccessLemmas.WriteWalkIgnoresCaller | IntelFrameworkModulePkg/Bus/Pci/PciBusDxe/PciLib.c:1627-1711 | For a 32-bit or wider caller width, the write loop's outcome does not depend on the caller's buffer: only Data is carried from unit to unit. |
| AccessLemmas.DwordUnderQwordIgnoresCaller | IntelFrameworkModulePkg/Bus/Pci/PciBusDxe/PciLib.c:1629-1652 | A 32-bit write under a record asking for 64-bit accesses gives the same status, configuration space and accesses whatever the caller's value: the merge switch has no 32-bit case. |
| AccessLemmas.DwordUnderQwordRewritesReadBack | IntelFrameworkModulePkg/Bus/Pci/PciBusDxe/PciLib.c:1629-1690 | Such a write served by one unit, with no value records, that succeeds leaves every configuration byte as it was: it writes back what it read. |
| AccessLemmas.WriteFixupOffset | IntelFrameworkModulePkg/Bus/Pci/PciBusDxe/PciLib.c:1657 | The low byte of `AccessAddress * 0xff` is the negated register offset. It equals the register offset only at offsets 0 and 128. |
| CheckedAccess.InfoTrace | IntelFrameworkModulePkg/Bus/Pci/PciBusDxe/PciLib.c:1782-1829 | A header snapshot means no reads. Otherwise there are one to three reads. |
| CheckedAccess.ReadDword | IntelFrameworkModulePkg/Bus/Pci/PciBusDxe/PciLib.c:1787-1797 | One 32-bit read. Its status is the platform's verdict, and on success its value is the dword at that address. |
| CheckedAccess.ReadDeviceInfo | IntelFrameworkModulePkg/Bus/Pci/PciBusDxe/PciLib.c:1757-1843 | On a transport, the identity is GetPciDeviceDeviceInfo's and the reads are InfoTrace's. Configuration space is unchanged. |
| CheckedAccess.ReadIdentity | IntelFrameworkModulePkg/Bus/Pci/PciBusDxe/PciLib.c:1782-1833 | The three identification reads stop at the first failure or at an all-ones vendor ID. The result is InfoFromReads of their statuses and values. |
| CheckedAccess.ReadRest | IntelFrameworkModulePkg/Bus/Pci/PciBusDxe/PciLib.c:1806-1832 | Once dword 0 shows a device: dword 8 is read, then dword 0x2C unless the read of dword 8 failed. |
| CheckedAccess.FixUnit | IntelFrameworkModulePkg/Bus/Pci/PciBusDxe/PciLib.c:1906-1908 | The read fix-up of a unit keeps its length and changes nothing without a record. |
| CheckedAccess.CheckRead | IntelFrameworkModulePkg/Bus/Pci/PciBusDxe/PciLib.c:1863-1912 | A NULL buffer gives UNSUPPORTED before any access. |
| CheckedAccess.ReadUnits | IntelFrameworkModulePkg/Bus/Pci/PciBusDxe/PciLib.c:1892-1909 | The Count loop on a transport returns CheckReadLoop's status and data and makes its reads. |
| CheckedAccess.PciIncompatibilityCheckRead | IntelFrameworkModulePkg/Bus/Pci/PciBusDxe/PciLib.c:1863-1912 | On a transport, the status, data and reads are CheckRead's. Configuration space is unchanged. |
| CheckedAccess.WriteImage | IntelFrameworkModulePkg/Bus/Pci/PciBusDxe/PciLib.c:1966-1982 | Data starts with the caller's unit, zero-extended to 64 bits. |
| CheckedAccess.UnitData | IntelFrameworkModulePkg/Bus/Pci/PciBusDxe/PciLib.c:1966-1989 | Without the register-update bit, Data holds the caller's unit unchanged. |
| CheckedAccess.CheckWrite | IntelFrameworkModulePkg/Bus/Pci/PciBusDxe/PciLib.c:1934-2002 | A NULL buffer gives UNSUPPORTED with no access. A width above 32 bits with at least one unit leaves configuration space untouched and returns UNSUPPORTED, or the identity fetch's failure when that fails first. |
| CheckedAccess.WriteCheckedUnit | IntelFrameworkModulePkg/Bus/Pci/PciBusDxe/PciLib.c:1966-1998 | One unit on a transport: the status, configuration space and accesses are UnitWriter's. |
| CheckedAccess.WriteUnits | IntelFrameworkModulePkg/Bus/Pci/PciBusDxe/PciLib.c:1964-1999 | The Count loop on a transport leaves CheckWriteLoop's status, space and accesses. |
| CheckedAccess.PciIncompatibilityCheckWrite | IntelFrameworkModulePkg/Bus/Pci/PciBusDxe/PciLib.c:1934-2002 | On a transport, the status, configuration space and accesses are CheckWrite's. |
| CheckedAccess.UnitsReadNext | IntelFrameworkModulePkg/Bus/Pci/PciBusDxe/PciLib.c:1892 | The first Count units read exactly when the unit at Offset reads and so do the Count - 1 units from `Offset + Stride` on. |
| CheckedAccess.CheckReadLoopSucceeds | IntelFrameworkModulePkg/Bus/Pci/PciBusDxe/PciLib.c:1892-1911 | The loop succeeds exactly when every unit read at `Offset + i * 2^Width` succeeds. |
| CheckedAccess.CheckWriteLoopFirstFailure | IntelFrameworkModulePkg/Bus/Pci/PciBusDxe/PciLib.c:1964-1998 | A failing write loop returns the status of the first failing unit and leaves the space that unit's write left. Every unit before it was written, each on the space the one before left. |
| CheckedAccess.CheckReadLoopFirstFailure | IntelFrameworkModulePkg/Bus/Pci/PciBusDxe/PciLib.c:1897-1901 | A failing loop returns the status of the first failing unit. Every unit before it was read. |
| CheckedAccess.CheckReadLoopReadsSpan | IntelFrameworkModulePkg/Bus/Pci/PciBusDxe/PciLib.c:1892-1909 | When each unit delivers its own bytes, the loop delivers the `Count * 2^Width` bytes from Offset on. |
| CheckedAccess.CheckWriteLoopStores | IntelFrameworkModulePkg/Bus/Pci/PciBusDxe/PciLib.c:1964-1999 | When each unit write stores exactly its unit, a successful loop stores the caller's `Count * 2^Width` bytes from Offset on. |
| CheckedAccess.UnquirkedUnitRead | IntelFrameworkModulePkg/Bus/Pci/PciBusDxe/PciLib.c:1897-1908 | Without records, a unit read delivers the unit's own configuration bytes. |
| CheckedAccess.UnquirkedUnitWrite | IntelFrameworkModulePkg/Bus/Pci/PciBusDxe/PciLib.c:1966-1994 | Without records, a successful unit write stores exactly the unit. |
| CheckedAccess.CheckReadSucceeds | IntelFrameworkModulePkg/Bus/Pci/PciBusDxe/PciLib.c:1878-1911 | The checked read succeeds exactly when the identity is fetched and every unit read succeeds. |
| CheckedAccess.CheckReadUnquirked | IntelFrameworkModulePkg/Bus/Pci/PciBusDxe/PciLib.c:1863-1912 | Without records, a successful checked read returns the `Count * 2^Width` bytes from Offset, as the plain protocol read does. |
| CheckedAccess.CheckWriteUnquirked | IntelFrameworkModulePkg/Bus/Pci/PciBusDxe/PciLib.c:1934-2002 | Without records, a successful checked write stores the caller's `Count * 2^Width` bytes from Offset, as the plain protocol write does. |
| CheckedAccess.RootBridgeStatus | IntelFrameworkModulePkg/Bus/Pci/PciBusDxe/PciLib.c:2045-2049 | UNSUPPORTED becomes INVALID_PARAMETER, every other status passes through, and UNSUPPORTED is never returned. |
| CheckedAccess.PciRootBridgeIoRead | IntelFrameworkModulePkg/Bus/Pci/PciBusDxe/PciLib.c:2021-2059 | With the read bit set, the result is CheckRead with UNSUPPORTED reported as INVALID_PARAMETER. With the bit clear, it is one plain read of Count units. |
| CheckedAccess.PciRootBridgeIoWrite | IntelFrameworkModulePkg/Bus/Pci/PciBusDxe/PciLib.c:2078-2117 | With the write bit set, the result is CheckWrite with UNSUPPORTED reported as INVALID_PARAMETER. With the bit clear, it is one plain write of Count units. |
| CheckedAccess.PciIoRead | IntelFrameworkModulePkg/Bus/Pci/PciBusDxe/PciLib.c:2137-2167 | With the read bit set, the result is CheckRead with the device's own snapshot and its status as it is. Otherwise it is one plain read. |
| CheckedAccess.PciIoWrite | IntelFrameworkModulePkg/Bus/Pci/PciBusDxe/PciLib.c:2189-2220 | With the write bit set, the result is CheckWrite with the device's own snapshot and its status as it is. Otherwise it is one plain write. |
| BusScan.AddPadding | IntelFrameworkModulePkg/Bus/Pci/PciBusDxe/PciLib.c:946-957 | Adding the padding changes only the counters and writes no register. |
| BusScan.AssignFresh | IntelFrameworkModulePkg/Bus/Pci/PciBusDxe/PciLib.c:882-900 | Absent wrap, a bridge's secondary bus is one above the base (`*SubBusNumber`, or `*PaddedBusRange` when it is 0), and that is the only number assigned. |
| BusScan.CloseFresh | IntelFrameworkModulePkg/Bus/Pci/PciBusDxe/PciLib.c:946-971 | Adding the padding and writing the subordinate register assign no number, and absent wrap never lower `*SubBusNumber`. |
| BusScan.BridgeFresh | IntelFrameworkModulePkg/Bus/Pci/PciBusDxe/PciLib.c:882-971 | A bridge's whole stretch of the walk keeps the numbering fresh. |
| BusScan.ScanFunctionFresh | IntelFrameworkModulePkg/Bus/Pci/PciBusDxe/PciLib.c:813-972 | The bridge handling of one function keeps the numbering fresh, whatever it returns. |
| BusScan.ScanSlotsFresh | IntelFrameworkModulePkg/Bus/Pci/PciBusDxe/PciLib.c:719-983 | The device and function loops keep the numbering fresh. |
| BusScan.ScanBusFresh | IntelFrameworkModulePkg/Bus/Pci/PciBusDxe/PciLib.c:684-986 | Absent 8-bit wrap, the secondary bus numbers the scan assigns are strictly increasing (never reused). They lie above the base it started from and no higher than the base it leaves. |
| BusScan.BridgeWindow | IntelFrameworkModulePkg/Bus/Pci/PciBusDxe/PciLib.c:882-971 | For a PCI-to-PCI bridge, absent wrap, the writes are `(Secondary << 8) \| StartBusNumber`, then subordinate 0xFF, and finally subordinate = final `*SubBusNumber`. Every bus numbered behind the bridge lies above its secondary and at most its subordinate, and the secondary is at most the subordinate even with nothing behind the bridge. |
| BusScan.SkipSlots | IntelFrameworkModulePkg/Bus/Pci/PciBusDxe/PciLib.c:733-742 | From any point outside functions 1 to 7 of a single-function device, the rest of the scan ignores those functions. |
| BusScan.SingleFunctionSkips | IntelFrameworkModulePkg/Bus/Pci/PciBusDxe/PciLib.c:974-981 | When function 0 is absent or not multi-function, changing functions 1 to 7 of that device changes nothing the scan returns or writes. |
| BusScan.BusScanner.PciScanBus | IntelFrameworkModulePkg/Bus/Pci/PciBusDxe/PciLib.c:684-986 | The nested device/function loops leave the status, the two counters and the register writes of ScanBus. |
| BusScan.BusScanner.ScanFunctionAt | IntelFrameworkModulePkg/Bus/Pci/PciBusDxe/PciLib.c:813-972 | The bridge handling of one present function leaves ScanFunction's status and counters. |
| BusScan.BusScanner.AssignBridge | IntelFrameworkModulePkg/Bus/Pci/PciBusDxe/PciLib.c:882-900 | The counters and the primary/secondary write become Assign's, and the secondary bus is the new `*SubBusNumber`. |
| BusScan.BusScanner.CloseBridge | IntelFrameworkModulePkg/Bus/Pci/PciBusDxe/PciLib.c:946-971 | The padding goes to `*PaddedBusRange` for an enabled, initialized root-bridge padding and to `*SubBusNumber` otherwise, then the subordinate register is written (Close). |
| DeviceTree.PrunedStep | IntelFrameworkModulePkg/Bus/Pci/PciBusDxe/PciLib.c:119-152 | Walking k + 1 entries is walking k entries and then entry k, both for the list left and for the devices freed. |
| DeviceTree.PrunedClean | IntelFrameworkModulePkg/Bus/Pci/PciBusDxe/PciLib.c:113-153 | After pruning, no rejected device other than a PCI-to-PCI bridge remains at any depth reached through PCI-to-PCI bridges. |
| DeviceTree.PrunedKeepsOrder | IntelFrameworkModulePkg/Bus/Pci/PciBusDxe/PciLib.c:119-153 | The surviving entries are a subsequence of the original list, in order. |
| DeviceTree.PrunedKeeps | IntelFrameworkModulePkg/Bus/Pci/PciBusDxe/PciLib.c:123-132 | Every PCI-to-PCI bridge and every entry that is not rejected survives. |
| DeviceTree.PrunedOrFreed | IntelFrameworkModulePkg/Bus/Pci/PciBusDxe/PciLib.c:132-146 | Every device below the bridge either stays in the tree or is freed, exactly once (as multisets). |
| DeviceTree.RemovalOrder | IntelFrameworkModulePkg/Bus/Pci/PciBusDxe/PciLib.c:137-146 | A rejected entry that is not a PCI-to-PCI bridge is freed right after all the devices on it. |
| DeviceTree.RemoveRejectedPciDevices | IntelFrameworkModulePkg/Bus/Pci/PciBusDxe/PciLib.c:104-154 | With hot-plug support the list left is Pruned and the devices freed are RemovedIds. Without it nothing changes. |
| Allocator.FitRom | IntelFrameworkModulePkg/Bus/Pci/PciBusDxe/PciLib.c:299-326 | On the first attempt, RomSize and the Mem32 length become the larger of the length and the largest option ROM. When the ROM is larger, the alignment is at least ROM size - 1. On a retry, or when the ROM fits, the node is unchanged. |
| Allocator.Created | IntelFrameworkModulePkg/Bus/Pci/PciBusDxe/PciLib.c:239-282 | CreateResourceNode makes each root node with length 0 and alignment 0xFFF (I/O) or 0xFFFFF (memory). |
| Allocator.RootNodes | IntelFrameworkModulePkg/Bus/Pci/PciBusDxe/PciLib.c:239-326 | Five nodes, one per resource type in pool order, owned by the root bridge. Each is at least as long and as aligned as CreateResourceMap left it, and only the Mem32 node can differ from it, never on a retry. When CreateResourceMap kept the created alignments, every node is aligned to at least 0xFFF (I/O) or 0xFFFFF (memory). |
| Allocator.Refusal | IntelFrameworkModulePkg/Bus/Pci/PciBusDxe/PciLib.c:228-379 | A root bridge that is not accepted yields an error. An unresolved handle yields NOT_FOUND. |
| Allocator.ProgramOne | IntelFrameworkModulePkg/Bus/Pci/PciBusDxe/PciLib.c:577-647 | For one root bridge: first ProcessOptionRom at the granted Mem32 base with the root bridge's RomSize, then ProgramResource for each of the five types in pool order at the base granted for that type. |
| Allocator.SubmitStatus | IntelFrameworkModulePkg/Bus/Pci/PciBusDxe/PciLib.c:224-380 | The submission walk succeeds exactly when every root bridge resolves and is built and accepted. Otherwise it returns the refusal of the first one that is not. |
| Allocator.SubmitPools | IntelFrameworkModulePkg/Bus/Pci/PciBusDxe/PciLib.c:345-349 | A successful walk inserts every root bridge's five nodes into the pools, in order. |
| Allocator.SubmitState | IntelFrameworkModulePkg/Bus/Pci/PciBusDxe/PciLib.c:224-380 | The walk notifies no phase, does not touch ReAllocate and programs nothing. |
| Allocator.SubmitAligned | IntelFrameworkModulePkg/Bus/Pci/PciBusDxe/PciLib.c:239-349 | When CreateResourceMap kept each root bridge's created alignments, the walk keeps every pool node aligned to at least its type's initial alignment. |
| Allocator.AllocateAligned | IntelFrameworkModulePkg/Bus/Pci/PciBusDxe/PciLib.c:211-667 | When CreateResourceMap kept the created alignments in every attempt, however the allocator ends, its pools hold only nodes aligned to at least their type's initial alignment. |
| Allocator.SubmitRomFrame | IntelFrameworkModulePkg/Bus/Pci/PciBusDxe/PciLib.c:224-380 | The submission walk leaves the RomSize of every root bridge it does not visit as it was. |
| Allocator.SubmitRomSize | IntelFrameworkModulePkg/Bus/Pci/PciBusDxe/PciLib.c:296-317 | After a successful submission walk, each root bridge (the last with its handle) holds the RomSize its own submission set: the Mem32 length, enlarged to the largest option ROM on the first attempt. |
| Allocator.ProgramRoms | IntelFrameworkModulePkg/Bus/Pci/PciBusDxe/PciLib.c:549-589 | A successful programming pass calls ProcessOptionRom for every root bridge at its granted Mem32 base with the RomSize the root bridge holds. |
| Allocator.ProgramOutcome | IntelFrameworkModulePkg/Bus/Pci/PciBusDxe/PciLib.c:549-650 | The programming pass returns NOT_FOUND at the first unresolved handle or the first failed GetProposedResources status, and otherwise Success. It changes nothing but the programming record. |
| Allocator.RetryStep | IntelFrameworkModulePkg/Bus/Pci/PciBusDxe/PciLib.c:407-523 | A rejected attempt whose proposals are read and whose pools are adjusted releases the pools. It notifies AllocateResources then FreeResources and continues with ReAllocate set. |
| Allocator.AcceptStep | IntelFrameworkModulePkg/Bus/Pci/PciBusDxe/PciLib.c:543-666 | An accepted attempt ends with the programming pass's status. It notifies AllocateResources and SetResources, and EndResourceAllocation on success. |
| Allocator.RetriesFrom | IntelFrameworkModulePkg/Bus/Pci/PciBusDxe/PciLib.c:211-524 | From any attempt, n rejections followed by an acceptance give exactly n rounds of AllocateResources/FreeResources, then the accepted phases, the programming pass's status, and each option ROM processed with the accepted submission's RomSize. |
| Allocator.RetriesUntilAccepted | IntelFrameworkModulePkg/Bus/Pci/PciBusDxe/PciLib.c:206-667 | For a call of the allocator with hot-plug support, n rejections followed by an acceptance give exactly n rounds of AllocateResources/FreeResources, then the accepted phases. ReAllocate ends set exactly when n > 0. After a successful programming pass, every root bridge's option ROMs are processed with the RomSize of the accepted submission: the Mem32 length enlarged to the largest option ROM when n == 0, the Mem32 length alone after a retry. |
| Allocator.WithoutHotPlug | IntelFrameworkModulePkg/Bus/Pci/PciBusDxe/PciLib.c:389-405 | For a call without hot-plug support only the first attempt is used and ReAllocate stays clear. A rejected allocation returns OUT_OF_RESOURCES. |
| Allocator.RomOnFirstAttempt | IntelFrameworkModulePkg/Bus/Pci/PciBusDxe/PciLib.c:304-326 | On the first attempt the Mem32 root node covers the largest option ROM and is aligned to its size - 1 when the ROM is larger. On a retry it is exactly the devices' demand. |
| Allocator.ResourceAllocator.PciHostBridgeResourceAllocator | IntelFrameworkModulePkg/Bus/Pci/PciBusDxe/PciLib.c:170-667 | Each call clears ReAllocate (206) and starts every attempt with empty pools (215-219). The retry loop then leaves Allocate's outcome and state: pools, RomSize, phases notified, programming and ReAllocate. |
| Allocator.ResourceAllocator.SubmitResources | IntelFrameworkModulePkg/Bus/Pci/PciBusDxe/PciLib.c:224-380 | The submission walk leaves SubmitFrom's status and state. |
| Allocator.ResourceAllocator.CheckProposed | IntelFrameworkModulePkg/Bus/Pci/PciBusDxe/PciLib.c:431-474 | The walk over the proposals returns NOT_FOUND for an unresolved handle or the first failing GetProposedResources status. |
| Allocator.ResourceAllocator.ProgramResources | IntelFrameworkModulePkg/Bus/Pci/PciBusDxe/PciLib.c:543-666 | SetResources, the programming pass, then the pools released and EndResourceAllocation on success (Program). |

## Left out

- `GetBackPcCardBar`, `PciHostBridgeEnumerator`, `PciHostBridgeP2CProcess` and `PciRootBridgeP2CProcess` are outside this model. They orchestrate collaborators that are not defined in `PciLib.c`.
- Hot-plug controller initialisation (`CreateEventForHpc`, `InitializeRootHpc`), its events and timers, and `PreprocessController` are left out. `PciScanBus` sees only the padding answer they lead to (`Padding`).
- `PciDevicePresent`, `PciSearchDevice`, `IsRootPciHotPlugBus`, `GetResourcePadding`, `PciGetBusRange` and `IsPciDeviceRejected` are answers stored in the bus and device values, not code.
- The `ASSERT` on `PciSearchDevice` in hot-plug mode is not modelled: that status is ignored in hot-plug mode, as in a release build.
- The two quirk tables are injected functions. Their contents are not part of this model.
- The transport is a byte map with an injected verdict per access. A missed lookup of the access-width table leaves the previous record in force, as the loops do.
- EFI_PCI_ROOT_BRIDGE_IO and EFI_PCI_IO address encodings are treated alike: addresses are plain byte offsets. The UINT64/UINT32 truncation of offsets is not modelled.
- Shift counts of 64 or more take their mathematical value (0). In C that case is undefined.
- PCI_INCOMPATIBLE_* mask bits are four booleans (`SupportMask`). VALUE_NOCARE is all ones.
- DeviceInfo: the UINT64 fields of EFI_PCI_DEVICE_INFO are kept as 32-bit words, since they only ever hold 8-, 16- or 32-bit register values.
- FixUnit: the fix-up of a narrow unit in the caller's buffer reads the bytes after the unit as zero instead of as whatever follows in memory. UpdateConfigDataIgnoresHighBits shows that those bytes cannot change the unit.
- QuirkedWriteMergesLane: stated only when the write fix-up leaves Data as it is. With a write record, the merged value is stated by MergeLaneBytes before the fix-up.
- BusScan: the bridge register writes are recorded in a log, not sent through `PciRootBridgeIoWrite`. Their status is ignored, as in the source.
- BusScan: an 8-bit counter wrap is computed modulo 256 as in the source, and recorded in the `wrapped` flag. The numbering properties are stated for scans that never wrap.
- Allocator.ResourceAllocator.PciHostBridgeResourceAllocator: the source retries until the host bridge accepts. The model follows a finite script of attempts and ends with `ScriptExhausted` when the script runs out.
- `CreateResourceMap` is not part of this model. Its answer is any length and alignment per root node, given in the script. `ConstructAcpiResourceRequestor`, `GetResourceAllocationStatus`, `PciHostBridgeAdjustAllocation`, `GetResourceMap`, `ProgramResource` and `ProcessOptionRom` are script answers or recorded calls.
- RootNodes, SubmitAligned, AllocateAligned: the bound of 0xFFF (I/O) or 0xFFFFF (memory) on the pools' alignments holds only when `CreateResourceMap` never lowers a root node's alignment below the one it was created with (`KeepsAlignment`). PciLib.c itself guarantees only the created alignments (239-282) and that the option-ROM enlargement never lowers them (322-324). The lemmas state the bound under that premise.
- Allocator.ResourceAllocator.PciHostBridgeResourceAllocator: without hot-plug support and with no root bridge at all, an accepted allocation reads `RootBridgeDev->PciRootBridgeIo` through the NULL `RootBridgeDev` at PciLib.c:403. The model goes on to the programming pass instead. The dereference only fills a status-code payload, which is left out.
- The five pools are one list of nodes tagged with their pool. Resource trees below the root nodes are not modelled.
- Allocator.ResourceAllocator.PciHostBridgeResourceAllocator: the status-code reports and the diagnostic payloads are left out, and so are `DEBUG` output and pool allocation bookkeeping.
- DeviceTree: child lists are sequences of values, so aliasing between list entries is not modelled.
- DeviceTree: the order in which `RemoveAllPciDeviceOnBridge` frees the devices below a rejected bridge is taken as children first, depth-first, as `RemovedIds` lists them.
- ReadLoop, ReadConfig: TempBuffer is a single UINT64 (PciLib.c:1369) and `Pointer += Stride` has no bound, so reads that cover more than 8 bytes run past it in C. `ReadWalkOverrunsTempBuffer` exhibits such a read: a 32-bit read under a 64-bit record at a register 5 bytes past a 64-bit boundary. The model gathers the bytes in an unbounded sequence; what the overflow overwrites in C is not modelled.
- MergeLane, Prepare: the merge at PciLib.c:1646 and 1650 computes in C `int`. From a shift of 24 bits (byte) or 16 bits (word) on, the shifts overflow, and in practice bytes 4 to 7 of Data are cleared or set by sign or zero extension. A shift of 32 bits or more is undefined. The model merges the caller's bytes at their byte position in 64-bit Data, as if all arithmetic were 64-bit.
- Prepare: on a later unit whose AccessAddress is past Offset, C computes `(UINTN)(Offset - AccessAddress) * 8`, which wraps to a huge, undefined shift. The model does not merge on such a unit.
- EFI_ERROR: the model treats every status other than Success as an error at the `EFI_ERROR` tests of `GetPciDeviceDeviceInfo` (PciLib.c:1795, 1813, 1827), `PciScanBus` (733, 831, 856, 870, 941) and the allocator (369, 393, 411, 456, 519, 569). A warning status passes those tests in C. The status type here has no warning codes, so the injected oracles never return one.
- Transport.Outcome: width codes above 3 are answered INVALID_PARAMETER. The source forwards them, including the FIFO and FILL widths 4 to 11, to the protocol, whose answer is not part of this model.

## Findings

| source | as written | input that shows it | evidently intended | confidence | as-written member | corrected member |
|---|---|---|---|---|---|---|
| IntelFrameworkModulePkg/Bus/Pci/PciBusDxe/PciLib.c:1449-1460 | On the access-width path, the copy-out hands the caller the low 2^Width bytes of TempBuffer. Those bytes start at AccessAddress, not at Offset. | A byte write of a value to register 1 of a function whose records ask for 32-bit reads and writes, then a byte read of register 1. The read returns the byte register 0 held, not the value written. | Shift TempBuffer right by (Offset - AccessAddress) * 8 before the copy-out, so that a write read back at its own width returns what was written. | High; not executed | AccessLemmas.MisalignedWriteThenReadMissesCaller | AccessLemmas.ShiftedReadAfterQuirkedWrite |

`ReadConfigData` and the checked paths built on it still model the copy-out as written. `ShiftedReadConfig` is the reference for the intended read; the round trip is proved against it.
