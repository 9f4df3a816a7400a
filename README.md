# crmsh corosync configuration core, modelled in Dafny

This project models the part of crmsh that edits a parsed `corosync.conf`:

- **The configuration tree** (`tree.dfy`). It is an ordered dictionary whose values are
  strings, nested sections or lists of repeated sections.
- **`ConfParser`** (`conf_parser.dfy`):
  - the path-addressed write `_raw_set`/`set`;
  - the reads `get`, `get_all` and `remove`, each with its own error wrapping;
  - the list normaliser `transform_dom_with_list_schema`.

  The class holds the tree in a field. `RawSet` walks the dotted path with the
  source's own loop and is proved equal to a recursive specification `SetAt`.
  Each iteration of the loop is the method `Descend`; the last segment is `WriteLeaf`.
- **Two node-list helpers** (`corosync.dfy`): `get_free_nodeid` and
  `get_link_number`. Both are loops.
- **The knet link manager** (`link_manager.dfy`).
  - `links()` derives eight link slots from `nodelist.node[*].ring{i}_addr` and
    the `totem.interface` records.
  - The mutators `update_link`, `update_node_addr` (with
    `__upsert_node_addr_impl`), `add_link` and `remove_link` are each a
    specification function, a method with the source's loops proved equal to it,
    and a `LinkManager` class method that replaces the tree.
  - `link_props.dfy`, `node_addr_props.dfy` and `link_edit_props.dfy` prove
    when each mutator fails. They also prove that `links()` after a successful
    mutation differs from `links()` before it in exactly the slot the
    mutation names.
- **The corosync 2 → 3 migration** (`migration.dfy`). It covers
  `migrate_corosync_conf_impl`, `migrate_transport`, `migrate_udpu`,
  `migrate_multicast`, `migrate_crypto`, `migrate_rrp` and
  `populate_node_name`.
  - Each step is a specification function on the tree.
  - Each step with a loop is a method whose loop is proved equal to that function.
  - `migration_props.dfy` proves what each step does and when it fails.
  - `migration_theorems.dfy` proves two facts about the whole migration. It
    ends with knet exactly when the transport was knet, udpu or udp, or there
    was no `nodelist`. Running it a second time changes nothing.

Every exception that the source does not raise on purpose is the single error
`Malformed`. This covers failed `assert`s, a `KeyError` or `TypeError` on a
tree of the wrong shape, and an `int()` that fails. The exceptions raised on
purpose are separate constructors that carry their data.

Inputs the source gets from outside are parameters:

- the canonical form of an address, `utils.IP(addr).ip_address`, is a function `canon`;
- the CIB node roster is a sequence of `CibNode(nodeId, uname)`;
- each peer's fetched `corosync.conf` is a parsed tree, in a map keyed by uname.

## Model

| member | source | states |
|---|---|---|
| Corosync.GetFreeNodeid | crmsh/corosync.py:237-246 | 1 without ids. Otherwise the result is not in use, every positive id below it is in use, and it is at most `max(ids) + 1`. When `max(ids)` is at most 0 the range is empty and the result is `max(ids) + 1`, negative ids included. It is positive exactly when there are no ids or `max(ids)` is non-negative. |
| Corosync.GetLinkNumber | crmsh/corosync.py:58-63 | One plus the number of entries whose key matches `ring[1-7]_addr` and whose value is non-empty; hence between 1 and one more than the number of entries. |
| Corosync.SearchRingPattern | crmsh/corosync.py:61 | `re.search("ring[1-7]_addr", key)` succeeds exactly when the pattern occurs at some position. |
| Corosync.RingKeyCounted | crmsh/corosync.py:58-63 | `ring{i}_addr` is counted exactly when 1 <= i <= 7; `ring0_addr` and `ring8_addr` onwards are not. |
| ConfParser.ConfParser.RawSet | crmsh/corosync.py:428-472 | The loop over the path segments leaves the tree the recursive `_raw_set` specification computes. On an error the tree is unchanged. |
| ConfParser.ConfParser.Descend | crmsh/corosync.py:433-458 | One iteration of the walk creates a missing section, promotes a lone list-capable section at index 1, appends a section to a list at index == len, or enters the section at the index. It stays put at a string entry. It raises an index error or a type error exactly where the walk of the specification fails. |
| ConfParser.ConfParser.WriteLeaf | crmsh/corosync.py:459-472 | The last segment writes into a list at the index, appends at index == len, and fails past it. Any other entry is overwritten or added. |
| ConfParser.StepFill | crmsh/corosync.py:433-458 | One descent of the walk: what `_raw_set` does to the section equals what it does below the child, plugged back where the walk took the child from. |
| ConfParser.ConfParser.Set | crmsh/corosync.py:474-480 | `_raw_set`, with index errors turned into a ValueError naming the index and path. A non-section value on the way is a TypeError that passes through. |
| ConfParser.ConfParser.Remove | crmsh/corosync.py:422-426 | Removes the value at the path and index. Where there is none, it fails with a ValueError naming both, and the tree is unchanged. |
| ConfParser.ConfParser.Get | crmsh/corosync.py:401-411 | No value under an absent top-level key. A one-segment path reads the key: a list at the index, nothing past its end, any other value as it is. |
| ConfParser.ConfParser.GetAll | crmsh/corosync.py:413-420 | The empty list under an absent top-level key. A one-segment path gives the list held there, or the one value held there. |
| ConfParserProps.SetAtThenGetAt | crmsh/corosync.py:428-472 | After a successful write of a scalar, the read at the same path and index returns it. |
| ConfParserProps.SetThenGet | crmsh/corosync.py:401-411 | The same round trip through the public `get` for a dotted path. |
| ConfParserProps.SetIntoFreshSucceeds | crmsh/corosync.py:434-437 | Below a missing key, fresh empty sections are created and the write never fails. |
| ConfParserProps.SetMissingKeyAppends | crmsh/corosync.py:434-437 | A missing first key is appended as a new section; every existing key keeps its place. |
| ConfParserProps.SetIndexZeroInRange | crmsh/corosync.py:441-458 | Index 0 is never out of range. |
| ConfParserProps.SetFrame | crmsh/corosync.py:428-472 | Top-level keys the path does not name are unchanged. |
| ConfParserProps.PromotionRule | crmsh/corosync.py:440-449 | For any tree and any remaining path, on `totem.interface` or `nodelist.node` holding one section: index 1 makes it `[old, new]`, writes the rest of the path into the new section, and leaves every other key of the tree and of the parent section alone. Index 2 or more is out of range. |
| ConfParserProps.NonListSectionIgnoresIndex | crmsh/corosync.py:441-449 | A section outside the two list-capable ones ignores the index. |
| ConfParserProps.ListIndexRule | crmsh/corosync.py:450-458 | On a list: an index beyond the length fails. An index equal to the length appends one new section after the existing ones. |
| ConfParserProps.LeafRule | crmsh/corosync.py:459-472 | The last segment: an absent key or a non-list value is overwritten. A list is written at the index, appended at the length, and fails beyond it. |
| ConfParserProps.SetKeepsScalar | crmsh/corosync.py:439-458 | A scalar on the path is stepped over by the walk and stays a scalar. |
| ConfParserProps.GetInGetAll | crmsh/corosync.py:401-420 | Whatever `get` finds, `get_all` lists. |
| ConfParserProps.RemoveIffFound | crmsh/corosync.py:422-426 | `remove` succeeds exactly where `get` finds a value. |
| ConfParserProps.RemoveThenGet | crmsh/corosync.py:422-426 | After removing a scalar, `get` finds nothing there. |
| ConfParser.WrapSection | crmsh/corosync.py:522-529 | A lone value at a list-capable key is wrapped into a one-element list, and nothing else changes. A list, an absent key and a non-section parent are left alone. |
| ConfParser.TransformDomWithListSchema | crmsh/corosync.py:519-529 | The loop over the two list-capable sections computes the normaliser. |
| ConfParserProps.NormalizedIsNormal | crmsh/corosync.py:519-529 | Afterwards both list-capable sections hold lists wherever they are present. |
| ConfParserProps.NormalizeIdempotent | crmsh/corosync.py:519-529 | Normalising twice is normalising once. |
| ConfParserProps.WrapCommute | crmsh/corosync.py:519-528 | Wrapping under two different top-level sections commutes. |
| ConfParserProps.NormalizeOrderFree | crmsh/corosync.py:519-528 | The normaliser gives the same tree whichever of the two paths it wraps first, though the source walks them as a set. |
| ConfParserProps.NormalizeFrame | crmsh/corosync.py:519-529 | No top-level key but `totem` and `nodelist` changes. |
| ConfParserProps.NormalizeSection | crmsh/corosync.py:522-529 | Within one list-capable section, a lone value is wrapped into a one-element list. Otherwise the section is unchanged. |
| LinkManager.TotemTransport | crmsh/corosync.py:628-632 | "knet" without `totem` or without `transport`. A non-knet result is the stored `totem.transport`. |
| LinkManager.LinksOf | crmsh/corosync.py:634-673 | The slot loop of `links()` computes the eight slots of the specification. |
| LinkManager.LinkManager.Links | crmsh/corosync.py:634-673 | `links()` on the manager's tree is the eight-slot specification, or its error. |
| LinkManager.BareSlots | crmsh/corosync.py:649-663 | Exactly `KNET_LINK_NUM_LIMIT` slots. Slot i holds a link exactly when the first node has `ring{i}_addr`, listing every node at its address on that link, sorted by node id, with no options yet. |
| LinkProps.LinksShape | crmsh/corosync.py:634-673 | No slots without a node list. Otherwise slot i holds a link exactly when the first node has `ring{i}_addr`; that link is numbered i and lists every node sorted by nodeid. |
| LinkProps.LinksSourceFacts | crmsh/corosync.py:638-657 | A successful `links()` had a knet transport and a node list. Its interface records were readable, `totem` was a section where present, and the slots are built from the nodes and those records. |
| LinkProps.OptionsFromLastRecord | crmsh/corosync.py:669-672 | A link's options come from the last interface record carrying its number. |
| LinkProps.OptionsWithoutRecord | crmsh/corosync.py:669-672 | Without such a record, a link has no options. |
| LinkManager.EditInterface | crmsh/corosync.py:708-714 | The loop over the link's fields writes each set option as a string and pops each unset one. |
| LinkManager.StoreRecord | crmsh/corosync.py:715-726 | A record left with only `linknumber` is dropped; a new record is appended. An emptied list removes `totem.interface` when the key was there. |
| LinkManager.UpdateLinkOf | crmsh/corosync.py:675-727 | The method computes the `update_link` specification. |
| LinkManager.LinkManager.UpdateLink | crmsh/corosync.py:675-727 | On success the manager's tree becomes the `update_link` result. On an error the error is returned and the tree is unchanged. |
| LinkProps.UpdateLinkOutcome | crmsh/corosync.py:684-696 | `update_link` fails on a missing link or one beyond the eighth, on the option `nodes`, and on the first option that is not updatable. It succeeds exactly when none of these holds and `totem` is present. |
| LinkProps.EditedRecord | crmsh/corosync.py:703-719 | The written-back record carries the link number and exactly the merged options. |
| LinkProps.UpdateLinkThenLinks | crmsh/corosync.py:675-727 | Afterwards `links()` differs only in link `ln`, whose options are those of `load_options(options)`. |
| LinkManager.ClaimLoop | crmsh/corosync.py:763-777 | The uniqueness loop computes the pair-by-pair check, updating the address map after each pair. |
| LinkManager.WriteLoop | crmsh/corosync.py:778-783 | The write loop sets `ring{linknumber}_addr` on exactly the nodes the mapping names. |
| LinkManager.UpsertNodeAddrImpl | crmsh/corosync.py:743-784 | The method computes the upsert specification. |
| LinkManager.UpdateNodeAddrOf | crmsh/corosync.py:729-740 | The method computes the `update_node_addr` specification. |
| LinkManager.LinkManager.UpdateNodeAddr | crmsh/corosync.py:729-740 | On success the tree becomes the `update_node_addr` result. On an error the error is returned and the tree is unchanged. |
| NodeAddrProps.ClaimAddrsAccepts | crmsh/corosync.py:757-777 | The check passes exactly when every nodeid is a node of the link and every changing address is new to the address map and to earlier pairs. An address canonically equal to the node's own is exempt. |
| NodeAddrProps.PairCheck | crmsh/corosync.py:763-776 | One pair is refused with `Unknown nodeid` when no node of the link has its nodeid. It is refused with the duplicated address exception (address, nodeid, existing node) when its address changes and the map already holds the canonical address. Otherwise it passes. |
| NodeAddrProps.ClaimAddrsRejects | crmsh/corosync.py:762-777 | When the pairs are refused, the error is `PairCheck` of the first refused pair, against the map as `existing_addr_node_map[canonical_addr] = found.nodeid` left it after the earlier pairs, and every earlier pair passes. |
| NodeAddrProps.UpdateNodeAddrOutcome | crmsh/corosync.py:729-784 | Fails on a missing link, an unknown nodeid or a taken address. Otherwise it succeeds. When the link exists and the call fails, the error is that of the first pair the check refuses: every earlier pair names a node of the link and passes against the address map as the pairs before it updated it. |
| NodeAddrProps.UpdateNodeAddrThenLinks | crmsh/corosync.py:729-784 | Afterwards `links()` differs only in link `ln`, whose nodes carry the addresses the mapping gives them. |
| NodeAddrProps.SortReaddressed | crmsh/corosync.py:659 | Changing addresses commutes with the sort by nodeid. |
| LinkManager.AddLinkAddrsOf | crmsh/corosync.py:786-796 | The method computes the first half of `add_link`. |
| LinkManager.LinkManager.AddLink | crmsh/corosync.py:786-797 | A failure of the first half returns its error with the tree unchanged. Otherwise the addresses of the new link are written and `update_link` runs on that tree. If `update_link` fails, its error is returned and the written addresses stay. |
| LinkEditProps.AddLinkOutcome | crmsh/corosync.py:786-796 | Fails with `TooManyLinks` when no slot is free or there is no node list. Fails with `MissingNodes` listing exactly the nodeids the mapping leaves out. Writing the addresses succeeds exactly when there is a free slot and the mapping names every node and only nodes. Its addresses must also be new to the address map and pairwise distinct in canonical form. |
| LinkEditProps.AddLinkAddrsThenLinks | crmsh/corosync.py:786-796 | The lowest free slot gets a link listing every node at its new address. The other slots and the interface records are unchanged. |
| LinkEditProps.AddLinkThenLinks | crmsh/corosync.py:786-797 | After the options are applied as well, the new link carries them. Every other slot is unchanged. |
| LinkManager.DeleteLoop | crmsh/corosync.py:813-814 | The loop deletes the key from every node. |
| LinkManager.RemoveLinkNodesOf | crmsh/corosync.py:806-814 | The method computes the checks and the address deletion of `remove_link`. |
| LinkManager.RemoveLinkRecordsOf | crmsh/corosync.py:815-822 | The method computes the removal of the link's interface records. |
| LinkManager.LinkManager.RemoveLink | crmsh/corosync.py:799-822 | A failed existence or last-link check returns its error with the tree unchanged. Otherwise the addresses are deleted and the records of the link dropped. If the records cannot be read, the error is returned and the deletion stays. |
| LinkEditProps.RemoveLinkOutcome | crmsh/corosync.py:806-822 | Fails on a missing link and on the last link; the address deletion succeeds exactly when neither holds. The whole `remove_link` then succeeds exactly when there is a `totem` section and every interface record has a `linknumber`, and fails with `Malformed` otherwise. |
| LinkEditProps.RecordsOutcome | crmsh/corosync.py:816-822 | On records `links()` accepts, dropping a link's records fails exactly without `totem` or on a record with no `linknumber`, and the error is `Malformed`. |
| LinkEditProps.RemoveLinkSecondStep | crmsh/corosync.py:811-822 | Once the addresses are deleted, `remove_link` succeeds exactly where its records can be read. |
| LinkEditProps.RemoveLinkThenLinks | crmsh/corosync.py:799-822 | Afterwards slot `ln` is empty, every other slot is unchanged, and nothing is renumbered. |
| LinkEditProps.OptionsAfterDrop | crmsh/corosync.py:820 | Dropping link `ln`'s records leaves every other link's options unchanged. |
| Migration.RewriteInterfacesOf | crmsh/migration.py:306-314 | The loop over the interfaces computes the per-interface rewrite. |
| Migration.EditEach | crmsh/migration.py:306-314 | The in-place edit of every interface yields each interface edited, in order. An element that is not a section fails the whole loop. |
| MigrationProps.RewriteInterfaceEffect | crmsh/migration.py:307-314 | `mcastaddr`, `bindnetaddr`, `broadcast`, `ttl` and `ringnumber` are gone; a `ringnumber` value is now `linknumber`; every other key is untouched. |
| Migration.MigrateUdpu | crmsh/migration.py:302-318 | The method computes the `migrate_udpu` specification. |
| MigrationProps.UdpuOutcome | crmsh/migration.py:302-318 | Fails exactly when `totem`, an interface or `quorum` is not a section. |
| MigrationProps.UdpuTotem | crmsh/migration.py:303-314 | `transport` is `knet` and `knet_compression_model` is `none`. Every interface is rewritten and the other totem keys are untouched. |
| MigrationProps.UdpuTop | crmsh/migration.py:315-316 | `quorum` lost `expected_votes`, and no top-level key but `totem` and `quorum` changed. |
| Migration.BuildNodelist | crmsh/migration.py:343-354 | The loop over the CIB nodes builds the node list, stopping at the first failing node. |
| Migration.RunSteps | crmsh/migration.py:343-354 | A loop that appends the result of each step yields the results of all steps in order, or the error of the first failing step. |
| MigrationProps.NodelistOutcome | crmsh/migration.py:343-354 | One entry per CIB node in CIB order, or the error of the first CIB node without a usable peer configuration. |
| MigrationProps.NodeEntryReads | crmsh/migration.py:348-354 | An entry holds the CIB nodeid, the uname as `name`, and the peer's i-th `bindnetaddr` as `ring{i}_addr`. |
| MigrationProps.AddressesRead | crmsh/migration.py:349 | `ring{i}_addr` reads the i-th interface's `bindnetaddr`. |
| Migration.MigrateMulticast | crmsh/migration.py:320-359 | The method computes the `migrate_multicast` specification. |
| MigrationProps.MulticastOutcome | crmsh/migration.py:320-359 | In order, it fails on interfaces that cannot be rewritten, an existing `nodelist`, the first CIB node without a usable peer configuration (none, or one lacking `totem.interface` or a `bindnetaddr`), and a non-section `quorum`. |
| MigrationProps.MulticastOk | crmsh/migration.py:320-359 | It succeeds exactly when none of these errors happens. The result is the node list attached to the tree switched to knet. |
| MigrationProps.MulticastEffect | crmsh/migration.py:321-355 | `totem` is switched to knet and `nodelist.node` is the list built from the CIB. |
| MigrationProps.MulticastTop | crmsh/migration.py:355-357 | `quorum` lost `expected_votes`, and no top-level key but `totem`, `nodelist` and `quorum` changed. |
| Migration.MigrateTransport | crmsh/migration.py:280-299 | The method computes the `migrate_transport` specification. |
| MigrationProps.TransportDispatch | crmsh/migration.py:280-299 | knet is unchanged, udpu and udp go to their migrations, and any other transport goes to `migrate_multicast` exactly when there is no `nodelist`. A probe that raises other than KeyError fails. |
| MigrationProps.TransportResult | crmsh/migration.py:280-299 | Afterwards the transport is knet exactly when it was knet, udpu or udp, or there was no `nodelist`. A tree not on knet afterwards is unchanged. |
| MigrationProps.CryptoOutcome | crmsh/migration.py:362-369 | Fails only when `totem` is not a section. `crypto_hash` sha1 becomes sha256, and nothing else changes. |
| MigrationProps.CryptoIdempotent | crmsh/migration.py:362-369 | Running `migrate_crypto` twice is running it once. |
| Migration.CryptoSpec | crmsh/migration.py:362-369 | Fails exactly when `totem` is not a section. Without `crypto_hash` sha1 the tree is returned unchanged. |
| Migration.PopulateNodeName | crmsh/migration.py:392-399 | The loop over the nodes computes the naming specification, stopping at the first failing node. |
| MigrationProps.PopulateOutcome | crmsh/migration.py:392-399 | Every node is named in order, or the error of the first node that cannot be named is returned. |
| MigrationProps.NamedNodeOutcome | crmsh/migration.py:398-399 | A node needs a decimal `nodeid` that a CIB node has; it then gets that node's uname as `name`. |
| MigrationProps.CibNameLast | crmsh/migration.py:396 | The lookup finds the last CIB node with the id, and fails when none has it. |
| MigrationProps.IntNodeidOutcome | crmsh/migration.py:398 | `int(node['nodeid'])` succeeds on a section whose `nodeid` is a decimal string. |
| Migration.MigrateRrp | crmsh/migration.py:372-389 | The method computes the `migrate_rrp` specification. |
| MigrationProps.RrpInactive | crmsh/migration.py:373-379 | Without `nodelist.node`, or without a node naming `ring1_addr`, the tree is unchanged. |
| MigrationProps.RrpModeEffect | crmsh/migration.py:380-386 | `rrp_mode` is removed. `link_mode` becomes `active` when `rrp_mode` was `active` and keeps its old value otherwise. |
| MigrationProps.RrpOutcome | crmsh/migration.py:380-389 | Fails on a node without `nodeid`, and, when names are needed, on the first node that cannot be named. Otherwise it succeeds. |
| MigrationProps.RrpTotem | crmsh/migration.py:380-386 | On an rrp tree, `totem` goes through the rrp_mode step. |
| MigrationProps.RrpNodelist | crmsh/migration.py:387-389 | The node list is unchanged when every node has a name, and is otherwise the named nodes. |
| MigrationProps.RrpTop | crmsh/migration.py:372-389 | No top-level key but `totem` and `nodelist` changes. |
| Migration.MigrateCorosyncConfImpl | crmsh/migration.py:271-276 | The method computes the whole migration. |
| MigrationTheorems.MigrateUnfold | crmsh/migration.py:271-276 | A successful migration had `totem`, then ran the normaliser, transport, crypto and rrp steps in that order. |
| MigrationTheorems.NormalizedTotem | crmsh/migration.py:273 | The normaliser keeps every totem key but `interface`, and whether there is a `nodelist`. |
| MigrationTheorems.TransportKeepsNormal | crmsh/migration.py:280-359 | `migrate_transport` keeps both list-capable sections as lists. |
| MigrationTheorems.RrpKeepsTotem | crmsh/migration.py:380-386 | `migrate_rrp` keeps every totem key but `rrp_mode` and `link_mode`. |
| MigrationTheorems.RrpIdempotent | crmsh/migration.py:372-399 | A tree `migrate_rrp` has migrated is left alone by it. |
| MigrationTheorems.MigrateKnet | crmsh/migration.py:271-299 | After a successful migration the transport is knet exactly when it was knet, udpu or udp, or there was no `nodelist`. |
| MigrationTheorems.MigrateIdempotent | crmsh/migration.py:271-399 | Migrating a migrated configuration again gives the same configuration. |

## Left out

- Parsing and serialising corosync.conf (`DomParser`, `DomSerializer`, `DomQuery`) is not modelled. The model starts from the parsed tree. The addressing of `get`, `get_all` and `remove` is the model's own and follows `_raw_set`.
- File I/O is not modelled: reading the configuration, `save`, `write_config_file`, backups and copies, and `pull`/`push`/`diff_configuration`. It has no logic beyond the tree.
- The calls to corosync tools (`query_*_status`, `cfgtool`, `get_corosync_value`, `configure_two_node`, `find_configured_ip`) are left out because they are shell and network I/O.
- `get_corosync_value_dict` is left out because it uses float arithmetic.
- Address canonicalisation (`utils.IP(addr).ip_address`) is the parameter `canon`, because it is the ipaddress library.
- Link.load_options: options are strings. The typing-driven `int()` coercion of `__load_option` and the ValueError it can raise are not modelled.
- Text.ParseNat: `int()` accepts signs, surrounding whitespace and `_` separators. The model accepts plain decimal digits only, so such nodeids are `Malformed`, and CIB node ids are non-negative.
- LinkManager.InterfaceLinknumber: interface record `linknumber`s are read with the same digits-only parse. `links()` in the source takes `linknumber: -1` (ignored, as key -1) or ` 1` (link 1) (crmsh/corosync.py:669); the model's `LinksSpec` returns `Malformed` for them. `LinkManager.RecordLinknumber`, the `int()` of `remove_link` (crmsh/corosync.py:820), is read the same way.
- LinkManager.LinksSpec: `RosterOk` and `RingsComplete` require every node's `name` and `ring{i}_addr` to be strings. The source's `links()` (crmsh/corosync.py:645-656) keeps any value there, such as the list a repeated `name:` key produces; the model returns `Malformed` for such trees.
- Migration.NodeEntry: the source stores the CIB node id as a Python int. The model stores it as its decimal string, the form it takes in corosync.conf.
- Every unintended exception (a failed `assert`, a KeyError or TypeError on a tree of the wrong shape, a failed `int()`) is one error `Malformed`; messages and exception classes are not distinguished.
- The migration steps return the new tree. On an error the source may leave `dom` partly rewritten, and the model does not say what that partial tree is. The same holds for `add_link`, where the model does keep the written addresses when the options fail.
- Migration.CryptoSpec: the `except KeyError` branch is dead, because `.get` is used and `totem` is present. A missing `crypto_hash` is left missing, as the code has it. The comment at crmsh/migration.py:364 names sha256 as corosync 3's default, but the code rewrites only an explicit sha1.
- Migration.TransportSpec: the `bindnetaddr` probe of an unknown transport is modelled as it runs. An interface that is a string, or an empty list, raises TypeError or IndexError and fails the migration, so the probe can change the outcome and is not free of effect.
- The CIB roster (`Cib.nodes()`, lxml XPath) and the peers' configurations (`parallax_slurp` into temporary files) are inputs. The undefined `name` in `Cib.nodes()` is in code the model does not cover.
- UpdateLinkThenLinks (LinkProps): requires `SingleRecord`, which says two things. First, the link has at most one interface record: with several, `links()` reads the last and `update_link` edits the first. Second, that record spells its `linknumber` as `str(ln)` does. A record spelled `01` is read by `links()` through `int()` (crmsh/corosync.py:669), but `update_link` compares strings (crmsh/corosync.py:700), misses it and builds a new record. When every merged option is unset, that new record holds only its number and is not appended (crmsh/corosync.py:715-719), so `links()` keeps reporting the old record's options. The lemma does not cover either case.
- AddLinkThenLinks (LinkEditProps): requires `SingleRecord` on the free slot, for the same two reasons as `UpdateLinkThenLinks`. So it does not cover a free slot with several stale interface records, or one stale record whose `linknumber` is not spelled `str(n)`.
- ConfParser.ConfParser.RawSet: `index` is a `nat`. Python also takes a negative index, and `li[index]` (crmsh/corosync.py:458, 470) then counts from the end of the list. Negative indices are not modelled.
- ConfParser.ConfParser.Set: as for `RawSet`, negative indices are not modelled.
- ConfParser.ConfParser.Remove: as for `RawSet`, negative indices are not modelled.
- LinkManager.LinkManager.UpdateLink: `linknumber` is a `nat`. A negative link number would pass `linknumber >= KNET_LINK_NUM_LIMIT` (crmsh/corosync.py:685) and index `links` from the end. This is not modelled.
- LinkManager.LinkManager.UpdateNodeAddr: as for `UpdateLink`, a negative link number (crmsh/corosync.py:738) is not modelled.
- LinkManager.LinkManager.RemoveLink: as for `UpdateLink`, a negative link number (crmsh/corosync.py:807) is not modelled.
- Corosync.GetFreeNodeid: takes the node ids as integers. The `int(i)` conversion of the id strings (crmsh/corosync.py:241) and the ValueError it raises on a non-numeric id are not modelled.
- Corosync.GetLinkNumber: takes the first node section as its parameter. Reading it with `get_value("nodelist.node")` is not modelled, and neither is the AttributeError when that returns None (crmsh/corosync.py:60).
- ConfParser.WrapSection: a `totem` or `nodelist` that is a string or a list is left alone. In the source, `parent[item[-1]]` (crmsh/corosync.py:525) on such a value depends on what `DomQuery.get` returns, and `DomQuery` is not part of this model. A TypeError raised there would escape the `except KeyError`, which the model does not capture.
- Logging and the order of log lines are not modelled.
- Migration `check`/`check_remote` and their report handlers are concurrency and I/O, and are not modelled.
