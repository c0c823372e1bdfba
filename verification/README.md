# Repair migrations and backups of the Einsatzleiter, verified

The repository runs a fire-service incident system on MariaDB. Its hardest visible logic is in the data-repair
migrations under `alembic/versions` and in the backup command `app/cli.py`. This project models that logic in Dafny and
proves what the code comments promise: which identities are merged, that no reference and no data sheet is lost or mixed
up, that unique keys hold at every statement, and that crashes at any point leave a state from which a rerun recovers.

| file | part of the system |
|---|---|
| `VereinigungsSuche`, `Huelle` | the union-find of 0188 and the closure it represents |
| `KontaktBestand`, `KontaktZusagen`, `KontaktDedupe` | contact deduplication (0188): the specification, what it means column by column, and the statements that meet it |
| `NamensSlug`, `KontaktIds` | name slugs, data-sheet prefixes and the stabilised external ids (0186) |
| `Tabellen`, `Loeschungen`, `Mitgliedsdaten`, `MemberMerge` | redirecting foreign keys under arbitrary unique groups; the member merge (0231) |
| `Fahrtdaten`, `FahrtNamen`, `DoppelFahrten` | the trip-log passes of 0231: correction, normalisation, duplicate cancellation |
| `Dezimal`, `BackupNamen`, `BackupProtokoll`, `BackupZusagen` | backup file names and the publication protocol with crashes |
| `Telefone`, `UniqueTausch` | phone entries and the unique-key swap (0224) |
| `Druckregel` | automatic printing as print rules (0226) |
| `Vorlagen` | the template chain 0024, 0025, 0046 |
| `Schemalauf`, `Schemaplaene` | resumable schema upgrades (0228, 0229) |
| `Druckprotokoll` | the pressure replay (0201) |
| `Grundlagen` | nullable columns, `defaultdict(list)` groupings, `ORDER BY id` |

Domain names follow the source and are German; comments are English.

## How the code is modelled

- Tables are finite maps from id to row, held in class fields that the methods update statement by statement. Loops of the
  code are loops here; what they compute is tied to a specification defined without them, and the promises are lemmas
  about that specification. What a specification means is said a second time on the table columns alone, in words of its
  own (`KontaktZusagen`, `Mitgliedsdaten`, `Fahrtdaten`, and lemmas named `...Genau` and `...GenauDann`).
- String equality is exact; collations of MariaDB are not modelled. Two key columns collide as SQL defines it: NULL in a
  unique key collides with nothing, while `GROUP BY` puts NULLs into one group.
- JSON encoding and decoding are a faithful pair; undecodable columns are read as the source reads them.
- Unicode folding, case folding and the name normaliser of 0231 are function parameters: the theorems hold for every such
  function. Only what follows the folding (alphabet, splitting, stripping, cutting at 60) is spelled out.
- Where a result set has no order, any order is allowed; `len(...) == 1` on rows with distinct ids counts a set.
- A DDL statement first commits what is pending and then itself. A connection is given the number of DDL statements it
  survives; it may also break between the commit a statement begins with and the statement itself.
- Backups are steps of any number of processes on one directory. A dump is a byte sequence that may stop early; pruning is
  removal of any published file at any time; a tar whose parent died may go on writing to its own file; a power failure
  may cut files back to synced bytes, undo a rename, or lose names.
- Times, ids and sort orders are unbounded integers; counters of vehicles and pressures are reals.

Where the code is not what its comments or its shape suggest, the code is modelled and the difference is stated exactly:

- The header of 0224 says that a run can simply be started again after a crash. `_tausche_unique` does not look for an
  existing helper index, and the old columns do not protect rows that are already converted and committed:
  `UniqueTausch.WiederaufsetzenGenauDann` says exactly when a rerun works, after any number of broken runs.
- Phone entries may carry labels that are not in the catalogue. On them the downgrade of 0224 loses which number was
  released: `Telefone.FreigabeBleibtGenauDann` says exactly when it does not.
- `_entferne_kollisionen` compares NULLs as equal, a unique key does not: `Tabellen.LoeschenNoetigGenauDann`.
- A data-sheet number with a colon is cut off by `_pdf_praefix`: `NamensSlug.PraefixDesDatenblatts`.

## Model

| member | source | states |
|---|---|---|
| `VereinigungsSuche.UmhaengenErhaeltWurzeln` | alembic/versions/0188_objekt_kontakt_dedupe_unique.py:56-60 | the assignment inside `find` (path halving) cannot change any contact's root and keeps every parent at or below its node |
| `VereinigungsSuche.VerbindenVerschiebtKlasse` | alembic/versions/0188_objekt_kontakt_dedupe_unique.py:62-65 | linking a root to a smaller one moves exactly the contacts of that root's class, nobody else |
| `VereinigungsSuche.UnionFind.Find` | alembic/versions/0188_objekt_kontakt_dedupe_unique.py:56-60 | terminates on every forest, returns the end of the parent chain, and leaves every root as it was although it rewrites parents |
| `VereinigungsSuche.UnionFind.Vereinige` | alembic/versions/0188_objekt_kontakt_dedupe_unique.py:62-65 | all classes touched by the ids share afterwards the smallest of their roots; every other class is unchanged |
| `Huelle.VereinigeErweitert` | alembic/versions/0188_objekt_kontakt_dedupe_unique.py:62-65 | if sharing a root was the closure of some links, after one `vereinige` it is the closure of those links plus the links inside the group, no more and no less |
| `Huelle.WegInEinerKlasse` | alembic/versions/0188_objekt_kontakt_dedupe_unique.py:62-65 | soundness half: a chain of old and new links never leaves the class that was formed |
| `Huelle.GleicheWurzelVerbindet` | alembic/versions/0188_objekt_kontakt_dedupe_unique.py:62-65 | completeness half: contacts that end under one root are joined by a chain of links |
| `Huelle.WurzelIstKleinste` | alembic/versions/0188_objekt_kontakt_dedupe_unique.py:54-65 | the root of a class is its smallest id |
| `KontaktDedupe.VereinigeExakte` | alembic/versions/0188_objekt_kontakt_dedupe_unique.py:67-74 | after the exact pass two contacts share a root exactly when the closure of "same external key" joins them |
| `KontaktDedupe.Adoptiere` | alembic/versions/0188_objekt_kontakt_dedupe_unique.py:76-89 | after the adoption pass two contacts share a root exactly when the closure of both relations joins them; the returned keys are exactly the adoptable person groups |
| `KontaktDedupe.BildeGruppen` | alembic/versions/0188_objekt_kontakt_dedupe_unique.py:91-93 | each class is collected once under its root, in id order |
| `KontaktDedupe.BaueAenderungen` | alembic/versions/0188_objekt_kontakt_dedupe_unique.py:95-108 | one update per class and one loser entry per non-survivor, none missing and none extra |
| `KontaktDedupe.Datenbank.HaengeVerweiseUm` | alembic/versions/0188_objekt_kontakt_dedupe_unique.py:111-115 | the sequence of UPDATEs equals one simultaneous substitution of every contact by its survivor |
| `KontaktDedupe.Datenbank.LoescheVerlierer` | alembic/versions/0188_objekt_kontakt_dedupe_unique.py:116-117 | the deletes remove exactly the losers and ON DELETE SET NULL clears no reference |
| `KontaktDedupe.NurUeberlebende` | alembic/versions/0188_objekt_kontakt_dedupe_unique.py:116-122 | the deletes leave exactly the survivors, and the unique key holds in every mixture of their old and new rows, so no order of the updates can be refused one of them |
| `KontaktDedupe.Datenbank.SetzeAenderungen` | alembic/versions/0188_objekt_kontakt_dedupe_unique.py:118-122 | even when the unique key already exists none of the updates is refused, in any order of the list |
| `KontaktDedupe.Datenbank.Upgrade` | alembic/versions/0188_objekt_kontakt_dedupe_unique.py:42-135 | the run always ends well (the RuntimeError is unreachable). Said on the columns: of contacts linked directly or over others exactly the one of smallest id is left; an adopted one carries source and id of the import row of smallest id, any other one its own; the contact path is that of the smallest id that has one; nothing else changes; references follow; no external key occurs twice and the unique key is in place. On another dialect nothing changes |
| `KontaktZusagen.VerknuepfungGenauDann` | alembic/versions/0188_objekt_kontakt_dedupe_unique.py:67-89 | the links fed to the union-find are exactly: same organisation, object, source and non-null external id; or same organisation, object, role and name slug, for a person kept by hand in one row and imported in another, from one data sheet at most |
| `KontaktZusagen.AdoptionGenauDann` | alembic/versions/0188_objekt_kontakt_dedupe_unique.py:76-89 | a person is adopted exactly when one of its rows is kept by hand, one is imported, and no two imported rows have different data-sheet prefixes |
| `KontaktZusagen.KlasseGenauDann` | alembic/versions/0188_objekt_kontakt_dedupe_unique.py:54-93 | a merge class is exactly what those links connect, directly or over other contacts |
| `KontaktZusagen.ZeileGenau` | alembic/versions/0188_objekt_kontakt_dedupe_unique.py:97-108 | the surviving row column by column: the identity of the first import row exactly for adopted persons, the first non-empty contact path, everything else as before |
| `KontaktZusagen.BereinigtIstZusammengefuehrt` | alembic/versions/0188_objekt_kontakt_dedupe_unique.py:91-135 | the table so reached has exactly the smallest id of each class and no external key twice |
| `KontaktZusagen.VerweiseGenau` | alembic/versions/0188_objekt_kontakt_dedupe_unique.py:110-117 | a reference ends at the remaining contact it is linked to, any other value stays |
| `KontaktBestand.KlasseBleibtImObjekt` | alembic/versions/0188_objekt_kontakt_dedupe_unique.py:67-89 | merge classes never cross organisation or object, through chains of any length |
| `KontaktBestand.ImportzeileVorhanden` | alembic/versions/0188_objekt_kontakt_dedupe_unique.py:104-106 | every adopted survivor has an import row in its class |
| `KontaktBestand.IdentitaetAusKlasse` | alembic/versions/0188_objekt_kontakt_dedupe_unique.py:101-108 | the external identity of a survivor belonged to a row of its class |
| `KontaktBestand.ZwischenstandIstEindeutig` | alembic/versions/0188_objekt_kontakt_dedupe_unique.py:110-122 | after the deletes the unique key holds in every mixture of updated and not yet updated survivors |
| `KontaktBestand.BereinigtIstEindeutig` | alembic/versions/0188_objekt_kontakt_dedupe_unique.py:124-135 | survivors with an external id have pairwise distinct (org, object, source, id) |
| `KontaktBestand.ErreichbarkeitBleibt` | alembic/versions/0188_objekt_kontakt_dedupe_unique.py:100-107 | a non-empty contact path anywhere in a class is not lost |
| `KontaktBestand.VerweisBleibt` | alembic/versions/0188_objekt_kontakt_dedupe_unique.py:110-117 | a reference is set afterwards exactly when it was set before, points to an existing row, and stays in its class |
| `KontaktBestand.DatenblaetterBleibenGetrennt` | alembic/versions/0188_objekt_kontakt_dedupe_unique.py:76-89 | with the sources and ids that 0186 leaves, no class contains two different data-sheet prefixes, even through chains of both kinds of links |
| `NamensSlug.Slug` | alembic/versions/0188_objekt_kontakt_dedupe_unique.py:19-25 | whatever the Unicode folding yields, the slug is non-empty, at most 60 characters, and made of `[a-z0-9-]` without a leading or double hyphen |
| `NamensSlug.SlugIstWorte` | alembic/versions/0188_objekt_kontakt_dedupe_unique.py:19-25 | a slug is the runs of letters and digits of the folded name, in order, with single hyphens between them, cut at 60 characters, and the stopgap exactly when there are none |
| `NamensSlug.PdfPraefix` | alembic/versions/0188_objekt_kontakt_dedupe_unique.py:28-32 | a prefix exists exactly for ids that start with `pdf:` and is itself a `pdf:` id |
| `NamensSlug.PraefixDesDatenblatts` | alembic/versions/0188_objekt_kontakt_dedupe_unique.py:28-32 | for every data-sheet number: an id built on it has the number up to its first colon as prefix, so it is told apart by its data sheet if and only if the number holds no colon |
| `KontaktIds.Basis` | alembic/versions/0186_bma_scraper_entfernen.py:44-50 | the data sheet chosen for an object always starts with `pdf:` |
| `KontaktIds.LetzteTrennung` | alembic/versions/0186_bma_scraper_entfernen.py:54-58 | a string splits in one way only at its last colon |
| `KontaktIds.IdsSindEindeutigLesbar` | alembic/versions/0186_bma_scraper_entfernen.py:25-28 | core and collision number can be read back from an id, for arbitrary bases, kinds and names (the slug alphabet excludes `:` and `#`) |
| `KontaktIds.IdsSindVerschieden` | alembic/versions/0186_bma_scraper_entfernen.py:42-60 | contacts of one object that stay imported get pairwise different ids |
| `KontaktIds.IdsSindDatenblaetter` | alembic/versions/0186_bma_scraper_entfernen.py:51-54 | every row ends hand-kept without an id or imported under a `pdf:` id |
| `KontaktIds.DatenblattGenau` | alembic/versions/0186_bma_scraper_entfernen.py:44-50 | the data sheet is that of the only `pdf:` row of the same organisation and object; without one that of the first row with a number; none when there are several `pdf:` rows or neither kind |
| `KontaktIds.IdGenau` | alembic/versions/0186_bma_scraper_entfernen.py:43-60 | each contact ends with data sheet, role and slug of its own, numbered from 2 on by how many earlier contacts of the object have the same id without number; without a data sheet it loses its import identity |
| `KontaktIds.KontaktTabelle.VergebeIds` | alembic/versions/0186_bma_scraper_entfernen.py:39-60 | the counting loop gives every listed row exactly that id and touches no other row |
| `KontaktIds.DatenblaetterDanach` | alembic/versions/0186_bma_scraper_entfernen.py:43-60 | the whole table satisfies the assumption of the data-sheet separation of 0188 and has no duplicate imported id |
| `MemberMerge.GepruefteGruppen` | alembic/versions/0231_fahrtenbuch_member_dedup.py:80-84 | exactly the primary key and unique constraints of several columns that contain the member column |
| `MemberMerge.EntferneKollisionen` | alembic/versions/0231_fahrtenbuch_member_dedup.py:87-96 | the nested delete loops leave exactly the rows that had no winner counterpart at the start, so deletes do not influence later checks |
| `MemberMerge.GegenstueckBleibt` | alembic/versions/0231_fahrtenbuch_member_dedup.py:88-96 | deleting loser rows never removes a counterpart of another loser row |
| `Tabellen.GeloeschtHatGegenstueck` | alembic/versions/0231_fahrtenbuch_member_dedup.py:88-96 | each row deleted in one step had, at that moment, a winner row agreeing on the rest of a unique group, and that winner row survives the step |
| `Tabellen.LoeschenNoetigGenauDann` | alembic/versions/0231_fahrtenbuch_member_dedup.py:92-96 | a deleted row would have broken the key after the redirect if and only if nothing in the rest of it is NULL: the check takes NULLs as equal, the key does not |
| `Loeschungen.KollisionIstGegenstueck` | alembic/versions/0231_fahrtenbuch_member_dedup.py:87-105 | a collision found after other columns have been redirected is one between the rows as they were at the start: the row names the loser, the other one the winner in the same column, and they agree on the rest of the group once substituted |
| `Loeschungen.SpalteErklaert` | alembic/versions/0231_fahrtenbuch_member_dedup.py:99-105 | column by column: whoever is deleted falls back on a row that stays, directly or over rows deleted later |
| `Loeschungen.PaarErklaert` | alembic/versions/0231_fahrtenbuch_member_dedup.py:128-141 | pair by pair: the same with the substitutions of all pairs so far |
| `Loeschungen.GeloeschteWarDoppelt` | alembic/versions/0231_fahrtenbuch_member_dedup.py:87-96 | a row missing after the merge named a loser, and another row named that loser's winner in the same column and agrees with it on a whole unique group under the final substitution |
| `Loeschungen.UnbeteiligteBleiben` | alembic/versions/0231_fahrtenbuch_member_dedup.py:87-96 | a row that names no loser is never deleted |
| `Loeschungen.TabelleWirdNichtLeer` | alembic/versions/0231_fahrtenbuch_member_dedup.py:87-96 | no table is emptied |
| `Tabellen.SchrittGenauDannGueltig` | alembic/versions/0231_fahrtenbuch_member_dedup.py:87-105 | removing collisions and redirecting keeps every key of the table if and only if no one-column key on that column is taken by loser and winner at once |
| `Tabellen.ErsetztPaare` | alembic/versions/0231_fahrtenbuch_member_dedup.py:99-105 | redirecting one more member composes with the earlier redirects to one simultaneous substitution |
| `MemberMerge.Datenbank.HaengeReferenzenUm` | alembic/versions/0231_fahrtenbuch_member_dedup.py:99-118 | for one pair: all 27 columns are substituted, missing tables and columns skipped, every missing row falls back on a surviving one over counterparts, all keys hold, and the RuntimeError is unreachable |
| `MemberMerge.PaareErsetzt` | alembic/versions/0231_fahrtenbuch_member_dedup.py:128-141 | pair after pair equals one simultaneous loser-to-winner substitution |
| `MemberMerge.PaareErklaert` | alembic/versions/0231_fahrtenbuch_member_dedup.py:128-141 | in every table the reasons for missing rows add up over the pairs, with reference to the rows before the first pair |
| `MemberMerge.NurBetroffeneZeilen` | alembic/versions/0231_fahrtenbuch_member_dedup.py:121-141 | a row that names no loser in a reference column is in the merged table, unchanged |
| `MemberMerge.ErsetztOhneVerweise` | alembic/versions/0231_fahrtenbuch_member_dedup.py:107-118 | after the substitution no reference column names a loser |
| `MemberMerge.GewinnerSindKeineVerlierer` | alembic/versions/0231_fahrtenbuch_member_dedup.py:128-133 | no winner is a loser and no two losers share a winner |
| `MemberMerge.ErsatzGenauDann` | alembic/versions/0231_fahrtenbuch_member_dedup.py:121-133 | a loser has a winner exactly when, under its stripped and folded names, it is the only member without organisation and sybos id and the other is the only one with both |
| `MemberMerge.MitgliederGenau` | alembic/versions/0231_fahrtenbuch_member_dedup.py:134-141 | phone and mail of a winner are replaced exactly when empty, by those of its loser when these are not; every other column of every remaining member is as before, and exactly the losers are gone |
| `MemberMerge.ZeilenGenau` | alembic/versions/0231_fahrtenbuch_member_dedup.py:99-141 | value by value: a loser's id in one of the 27 columns has become its winner's, everything else in the remaining rows is unchanged |
| `MemberMerge.Datenbank.MergeMembers` | alembic/versions/0231_fahrtenbuch_member_dedup.py:121-141 | the whole pass equals one simultaneous substitution on the surviving rows of every table; every missing row named a loser and falls back on a surviving row over counterparts; no loser is referenced, all keys hold. Said on the columns: who is merged, which phone and mail each remaining member has, and every value of every remaining row |
| `MemberMerge.ZweiterLaufFindetKeinPaar` | alembic/versions/0231_fahrtenbuch_member_dedup.py:124-132 | after the merge no name has exactly one old and one new member, so a second run merges nobody |
| `MemberMerge.OhnePaareBleibtAlles` | alembic/versions/0231_fahrtenbuch_member_dedup.py:121-141 | a run without pairs changes no table |
| `FahrtNamen.Fahrtenbuch.KorrigiereFalscheMemberIds` | alembic/versions/0231_fahrtenbuch_member_dedup.py:144-189 | role by role of every trip: the member changes exactly when the captured name does not fit it and is that of just one active member of the trip's organisation, and then to that one; names do not change |
| `FahrtNamen.Fahrtenbuch.NormalisiereFahrten` | alembic/versions/0231_fahrtenbuch_member_dedup.py:192-231 | role by role of every trip: a linked role gets its member's name; a text without a member gets id and name of the only active member of the organisation it stands for, if there is just one; anything else stays |
| `FahrtNamen.EindeutigGenauDann` | alembic/versions/0231_fahrtenbuch_member_dedup.py:159-176 | one candidate means: one member that is active, of the trip's organisation, and whose full name normalises to the key |
| `FahrtNamen.AliasGenau` | alembic/versions/0231_fahrtenbuch_member_dedup.py:205-210 | four spellings stand for a member by hand; when normalisation makes two of them equal the later one counts |
| `FahrtNamen.TabellenGenau` | alembic/versions/0231_fahrtenbuch_member_dedup.py:144-231 | correction, normalisation and both in a row, role by role on the columns; a linked role without a captured name keeps its member |
| `FahrtNamen.VerknuepfteRollenHeissenWieIhrMitglied` | alembic/versions/0231_fahrtenbuch_member_dedup.py:165-231 | after both passes a role linked to an existing member carries exactly that member's name |
| `FahrtNamen.ErfassterNameBleibtGenauDann` | alembic/versions/0231_fahrtenbuch_member_dedup.py:165-231 | a captured name survives in normalised form if and only if it fits the linked member or fits exactly one active member of the organisation |
| `FahrtNamen.FreitextWirdVerknuepftGenauDann` | alembic/versions/0231_fahrtenbuch_member_dedup.py:220-227 | a free-text name is linked if and only if its key, or the spelling it is mapped to by hand, has exactly one candidate; otherwise the role is untouched |
| `FahrtNamen.NormalisierenIdempotent` | alembic/versions/0231_fahrtenbuch_member_dedup.py:192-231 | normalising twice is normalising once |
| `FahrtNamen.KorrekturAufNormalisiertemLeer` | alembic/versions/0231_fahrtenbuch_member_dedup.py:144-189 | on normalised data the correction is the identity |
| `FahrtNamen.ZweiterLaufLeer` | alembic/versions/0231_fahrtenbuch_member_dedup.py:301-309 | running correction and normalisation again changes no trip |
| `FahrtNamen.BeidePaesse` | alembic/versions/0231_fahrtenbuch_member_dedup.py:144-231 | over the whole table: every linked role has its member's name, and each captured name of a linked role is kept if and only if it can be told whom it means |
| `FahrtNamen.Fahrtenbuch.BereinigeNamen` | alembic/versions/0231_fahrtenbuch_member_dedup.py:307-308 | the two loops in the order of `upgrade` bring that about on the table, and role by role what both passes together are to do |
| `FahrtNamen.FalscheReihenfolgeVerliertDenNamen` | alembic/versions/0231_fahrtenbuch_member_dedup.py:149-152 | in the reverse order every wrongly linked role that could have been repaired keeps its wrong member and loses the captured name |
| `DoppelFahrten.VergleichGenauDann` | alembic/versions/0231_fahrtenbuch_member_dedup.py:241-268 | two trips have the same key exactly when they agree on all thirteen compared columns; the later one is the one created later, by id when equal, a missing time being the earliest |
| `DoppelFahrten.SpaetereGenauDann` | alembic/versions/0231_fahrtenbuch_member_dedup.py:260-277 | a trip is cancelled if and only if it is active and exactly one other active trip agrees with it on these columns, and that one comes before it |
| `DoppelFahrten.StornierungGenau` | alembic/versions/0231_fahrtenbuch_member_dedup.py:260-277 | exactly these trips get the cancelled status and reason; nothing else changes |
| `DoppelFahrten.FahrzeugeGenau` | alembic/versions/0231_fahrtenbuch_member_dedup.py:279-298 | a vehicle of a cancelled trip has in each of its three counters the greatest reading of its active trips, or the old value when there is none; other vehicles are untouched |
| `DoppelFahrten.SchluesselBleiben` | alembic/versions/0231_fahrtenbuch_member_dedup.py:260-277 | the comparison keys occurring among active trips are the same before and after |
| `DoppelFahrten.ZweiterLaufLeer` | alembic/versions/0231_fahrtenbuch_member_dedup.py:260-277 | a second run cancels nothing |
| `DoppelFahrten.NochmalAllePaesse` | alembic/versions/0231_fahrtenbuch_member_dedup.py:301-309 | correction, normalisation and cancellation together: a second run changes no trip, cancels none, and names stay those of the linked members |
| `DoppelFahrten.MaximaBleiben` | alembic/versions/0231_fahrtenbuch_member_dedup.py:282-298 | the maximum of each counter over the active trips of a vehicle is not changed by the cancellation |
| `DoppelFahrten.Maximum` | alembic/versions/0231_fahrtenbuch_member_dedup.py:290-294 | MAX over active trips, NULL exactly when no active trip has a reading |
| `DoppelFahrten.Fahrzeugpark.Storniere` | alembic/versions/0231_fahrtenbuch_member_dedup.py:260-277 | exactly the later trips of pairs that agree on the thirteen columns are cancelled with the fixed reason; the collected vehicles are exactly those of cancelled trips |
| `DoppelFahrten.Fahrzeugpark.StorniereDoppelfahrten` | alembic/versions/0231_fahrtenbuch_member_dedup.py:234-298 | trips and vehicles end as said: cancelled exactly the later of two that agree on the thirteen columns, counters at the greatest reading, which is the one from before the run |
| `DoppelFahrten.Fahrzeugpark.BereinigeFahrten` | alembic/versions/0231_fahrtenbuch_member_dedup.py:307-309 | the three passes over trips and vehicles in order: names, cancellations and counters as stated, the counters taken from the normalised trips |
| `Dezimal.ZahlVonZiffern` | app/cli.py:232-235 | reading a printed number gives the number back |
| `Dezimal.GleichLangeZahlen` | app/cli.py:235 | numerals of one width sort like their numbers |
| `Dezimal.LaengeBeimZaehlen` | app/cli.py:235 | a padded numeral gets longer exactly after a row of nines |
| `BackupNamen.NummerVonName` | app/cli.py:230-235 | a generated name, published or still partial, is recognised with the number it was built from |
| `BackupNamen.FreierNameIstFrei` | app/cli.py:227-235 | the chosen name and its `.partial` are both absent from the listing |
| `BackupNamen.NummerGenauDann` | app/cli.py:230-232 | exactly the names stem, optional underscore with at least six digits, ending, optional `.partial` count, with the number they carry |
| `BackupNamen.FreierNameGenau` | app/cli.py:233-235 | the plain name when none counts, otherwise the number after the greatest in use, padded to six digits |
| `BackupNamen.NachbarnSortiertGenauDann` | app/cli.py:227-235 | consecutive names sort in order if and only if the padded numeral keeps its width |
| `BackupNamen.SpaetereNamenSortierenSpaeter` | app/cli.py:227-235 | as long as no file of the stem is removed and the counter stays at or below 999999, any later name sorts after any earlier one |
| `BackupNamen.GrenzeIstScharf` | app/cli.py:235 | name 1000000 sorts before name 999999 |
| `BackupProtokoll.SchrittErhaelt` | app/cli.py:148-259 | every step of every process, crash and power failure keeps the invariant |
| `BackupProtokoll.StromausfallErhaelt` | app/cli.py:178-187 | because of the fsync before the rename, cutting files back to synced bytes, undoing a rename or losing names leaves no incomplete published file |
| `BackupProtokoll.LaufHaeltInvariante` | app/cli.py:148-259 | the invariant holds in every state of every run, with any number of processes, and of tar processes that outlived their parent |
| `BackupProtokoll.VeroeffentlichtesIstVollstaendig` | app/cli.py:187-221 | a file without the `.partial` suffix is complete and on disk at all times |
| `BackupProtokoll.UmbenennenUeberschreibtNichts` | app/cli.py:187-221 | a rename finds its own complete partial file and no file under the target name |
| `BackupProtokoll.AnlegenTrifftNichts` | app/cli.py:173-209 | the exclusive create never fails on a leftover |
| `BackupProtokoll.PutzenTrifftKeinenSchreiber` | app/cli.py:249-256 | while stale partial files are removed no process is writing or about to write |
| `BackupProtokoll.WegraeumenNurEigenes` | app/cli.py:188-223 | the final unlink can only remove a file that the same process created |
| `BackupProtokoll.VeroeffentlichtesBleibt` | app/cli.py:148-259 | a published file never changes; only pruning of that name or a power failure removes it |
| `BackupZusagen.VeroeffentlichenWirkt` | app/cli.py:187-221 | in every run, the rename puts the file that was under the partial name, complete and the process's own, under the target name, takes the partial name away, and touches no other name |
| `BackupZusagen.DumpWirdVeroeffentlicht` | app/cli.py:157-224 | create, write, end well, synchronise, check and rename, whatever other processes do in between: the target, absent before, holds exactly the bytes of the producer |
| `BackupZusagen.DumpBleibt` | app/cli.py:148-259 | and still does in every later state until it is pruned or the power fails |
| `BackupZusagen.NachStromausfallGanzOderWeg` | app/cli.py:178-187 | after a power failure a published file is there whole or not at all, and nobody holds the lock |
| `BackupZusagen.EndungDerArt` | app/cli.py:227-235 | dumps are published with `.sql.gz`, media archives with `.tar.gz` |
| `BackupZusagen.PutzenNurAltes` | app/cli.py:254-256 | only a partial file not written to for more than a day is cleaned away, and nothing else with it |
| `BackupZusagen.SchreibenWirkt` | app/cli.py:174-177 | a write adds the next bytes of the producer to the partial file and renews its time, nothing else |
| `BackupZusagen.WegraeumenWirkt` | app/cli.py:188-223 | the final unlink takes the partial name away and nothing else |
| `BackupZusagen.HoechstensEinerArbeitet` | app/cli.py:247-259 | two processes are never inside the lock at once |
| `BackupZusagen.AbgewiesenOhneWirkung` | app/cli.py:249-252 | a process is turned away only while another one is at work, and changes nothing |
| `BackupZusagen.ErfolgMoeglich` | app/cli.py:148-259 | from every state between two backups there is a sequence of steps that publishes any given bytes under the free name and leaves all other files alone |
| `BackupZusagen.StoerungenMoeglich` | app/cli.py:148-259 | and in every state crashes, pruning, exceptions, refused locks, cleaning of stale files and every loss of a power failure can happen |
| `BackupZusagen.StoerungenWirken` | app/cli.py:148-259 | what is pruned is gone, what a power failure leaves is what is there, time passes |
| `BackupZusagen.AufgebenUndScheitern` | app/cli.py:173-223 | giving up or failing changes no file; a failed writer goes on to unlink its own partial file |
| `BackupZusagen.VerlassenGibtFrei` | app/cli.py:247-259 | leaving the lock, by itself or by dying, lets the next process in and touches no file |
| `Telefone.LabelsSchliessenSichAus` | alembic/versions/0224_objekt_kontakt_telefon_freigabe.py:31-40 | no catalogue label prefix hides another, so the order of the label loop does not matter |
| `Telefone.NormalisiertKanonisch` | alembic/versions/0224_objekt_kontakt_telefon_freigabe.py:43-45 | the comparison form of a number has no separators, never starts with 00, and normalising it again changes nothing |
| `Telefone.TrennerEgal` | alembic/versions/0224_objekt_kontakt_telefon_freigabe.py:43-45 | a separator anywhere does not change which number is meant |
| `Telefone.VorwahlEgal` | alembic/versions/0224_objekt_kontakt_telefon_freigabe.py:43-45 | 00 and + in front mean the same number |
| `Telefone.RundreiseGenauDann` | alembic/versions/0224_objekt_kontakt_telefon_freigabe.py:34-40 | printing an entry and parsing it gives number and label back if and only if the number is trimmed and non-empty under a catalogue label, or, without a label, is trimmed and has no label prefix |
| `Telefone.EintragForm` | alembic/versions/0224_objekt_kontakt_telefon_freigabe.py:48-63 | every converted entry has a trimmed number and a trimmed non-empty label or none; its number is empty exactly for blank strings |
| `Telefone.LegacyGenau` | alembic/versions/0224_objekt_kontakt_telefon_freigabe.py:34-40 | a text is a catalogue label and the trimmed rest when it starts with one, else a number; it is never released |
| `Telefone.EintragAusObjekt` | alembic/versions/0224_objekt_kontakt_telefon_freigabe.py:56-63 | an object is an entry exactly when its number shows something; it is released by the JSON value true alone; other elements are dropped |
| `Telefone.UmwandelnIdempotentGenauDann` | alembic/versions/0224_objekt_kontakt_telefon_freigabe.py:48-63 | converting a second time changes nothing if and only if the list had no blank string |
| `Telefone.ZweimalKonvertiertGenauDann` | alembic/versions/0224_objekt_kontakt_telefon_freigabe.py:122-129 | a row converted twice while the old columns are still there, releases included, equals the row converted once if and only if its list held no blank string |
| `Telefone.Treffer` | alembic/versions/0224_objekt_kontakt_telefon_freigabe.py:126 | the first entry with the normalised number, index 0 when there is none or the number is empty |
| `Telefone.UmgestelltGenau` | alembic/versions/0224_objekt_kontakt_telefon_freigabe.py:123-127 | the conversion changes no number and label and releases one entry more, only for contacts with SMS: the first with the old number, or the first when no entry has it |
| `Telefone.KonvertierteListeGenau` | alembic/versions/0224_objekt_kontakt_telefon_freigabe.py:128-129 | the column holds the entries as objects in order, NULL when there are none |
| `Telefone.ZurueckgestelltGenau` | alembic/versions/0224_objekt_kontakt_telefon_freigabe.py:159-166 | the downgrade prints every entry in order and keeps the number of the first released one |
| `Telefone.NurEineFreigabeBleibt` | alembic/versions/0224_objekt_kontakt_telefon_freigabe.py:118-166 | down and up again keeps the number of entries and leaves exactly one release if there was any, none otherwise |
| `Telefone.NummerBleibtGenauDann` | alembic/versions/0224_objekt_kontakt_telefon_freigabe.py:34-45 | printing an entry and reading it back keeps its number, as numbers are compared, if and only if the entry is readable; under a free label it never does |
| `Telefone.ZeileBleibtGenauDann` | alembic/versions/0224_objekt_kontakt_telefon_freigabe.py:118-166 | down and up again keeps all numbers and labels of a contact if and only if every entry is readable |
| `Telefone.EinerBehaelt` | alembic/versions/0224_objekt_kontakt_telefon_freigabe.py:125-127 | there is always an entry that ought to keep the release: the first with the number of the first released one, the first entry if that number normalises to nothing |
| `Telefone.FreigabeBleibtGenauDann` | alembic/versions/0224_objekt_kontakt_telefon_freigabe.py:118-166 | for every column value: the release ends on that entry if and only if the released number normalises to nothing, or the entry is readable and no earlier text is read back as its number, or it is the first entry and no text is |
| `Telefone.FreigabeWandert` | alembic/versions/0224_objekt_kontakt_telefon_freigabe.py:118-166 | the release moves to somebody else's number on a list with a free label |
| `Telefone.KontaktZeilen.Konvertiere` | alembic/versions/0224_objekt_kontakt_telefon_freigabe.py:118-129 | the loop converts every row once |
| `Telefone.KontaktZeilen.StelleZurueck` | alembic/versions/0224_objekt_kontakt_telefon_freigabe.py:156-168 | the loop turns back every row and switches on exactly the objects with a released number or notification mail |
| `UniqueTausch.MehrSpaltenVerbietenWeniger` | alembic/versions/0224_objekt_kontakt_telefon_freigabe.py:67-68 | rows unique on some columns are unique on any superset of them, NULLs included |
| `UniqueTausch.LoeschenVerweigertGenauDann` | alembic/versions/0224_objekt_kontakt_telefon_freigabe.py:91-99 | dropping an index is refused (errors 1091, 1553) exactly when it is missing or the only one that leads with `incident_id` |
| `UniqueTausch.AnlegenVerweigertGenauDann` | alembic/versions/0224_objekt_kontakt_telefon_freigabe.py:103-107 | creating an index is refused (errors 1061, 1062) exactly when its name is taken, or it is unique and two rows agree on it without NULLs |
| `UniqueTausch.TauschVonAlt` | alembic/versions/0224_objekt_kontakt_telefon_freigabe.py:91-109 | started on the old key, none of the four statements is refused and the state after each of them is known |
| `UniqueTausch.GanzerLauf` | alembic/versions/0224_objekt_kontakt_telefon_freigabe.py:112-140 | an uninterrupted run on revision 0223: the three columns are gone, rows converted once, the key is unique on its four columns under the old name, no other index, column or notification has changed |
| `UniqueTausch.VorphaseErgebnis` | alembic/versions/0224_objekt_kontakt_telefon_freigabe.py:112-138 | what a run leaves that is cut off anywhere before the swap, before or right after the commit of a statement: the columns a second run reaches are the same, and so are the rows unless the cut came right after the converted rows were committed |
| `UniqueTausch.EinLauf` | alembic/versions/0224_objekt_kontakt_telefon_freigabe.py:112-140 | one run from any state earlier runs can have left: how far it gets, what it leaves, and that it is refused a statement only in the middle of the swap |
| `UniqueTausch.VieleLaeufe` | alembic/versions/0224_objekt_kontakt_telefon_freigabe.py:112-140 | after any number of runs cut off anywhere the state depends only on how far the swap got and how often converted rows were committed early |
| `UniqueTausch.MehrfachGenauDann` | alembic/versions/0224_objekt_kontakt_telefon_freigabe.py:118-129 | rows converted several times equal rows converted once if and only if no list held a blank string |
| `UniqueTausch.ImmerGedeckt` | alembic/versions/0224_objekt_kontakt_telefon_freigabe.py:112-140 | after any number of runs cut off anywhere some index leads with `incident_id`; a first run is never refused a statement (no error 1061, 1062 or 1553) |
| `UniqueTausch.WiederaufsetzenGenauDann` | alembic/versions/0224_objekt_kontakt_telefon_freigabe.py:91-140 | after any number of runs cut off anywhere, one more run succeeds with the columns, rows and unique key of a single uninterrupted run, apart from a leftover helper index, if and only if the swap was not left between helper index and new key, and either no run was cut off right after committing the converted rows or no list held a blank string. The header comment (lines 10-16) promises restartability without these conditions |
| `UniqueTausch.AbbruchNachDatenschrittGenauDann` | alembic/versions/0224_objekt_kontakt_telefon_freigabe.py:116-135 | the case of one run cut off right after the converted rows are committed: the rerun succeeds and equals the uninterrupted run if and only if no list held a blank string |
| `UniqueTausch.MittenErreichbar` | alembic/versions/0224_objekt_kontakt_telefon_freigabe.py:103-109 | a first run cut off after its fourth statement is in the middle of the swap, and every later run fails |
| `UniqueTausch.BeispielScheitert` | alembic/versions/0224_objekt_kontakt_telefon_freigabe.py:112-140 | a database of revision 0223 on which both conditions fail |
| `Druckregel.GatewayVon` | alembic/versions/0226_verleih_autodruck_zu_druckregel.py:75-84 | the coupled gateway of smallest id, none exactly when the organisation has no coupled gateway |
| `Druckregel.DruckerGenau` | alembic/versions/0226_verleih_autodruck_zu_druckregel.py:75-97 | the printer taken is the first standard one among the active printers of the first coupled gateway, the first of them when none is standard, none when there is none |
| `Druckregel.WirksamGenauDann` | alembic/versions/0226_verleih_autodruck_zu_druckregel.py:59-72 | an organisation counts as served exactly when one of its active rules prints the lending slip on some printer when a lending is created |
| `Druckregel.DruckerGefundenGenauDann` | alembic/versions/0226_verleih_autodruck_zu_druckregel.py:75-97 | a printer is found if and only if the first coupled gateway has an active one, and it is one of those |
| `Druckregel.NameMitEindeutig` | alembic/versions/0226_verleih_autodruck_zu_druckregel.py:109-111 | different numbers give different rule names |
| `Druckregel.Regelname` | alembic/versions/0226_verleih_autodruck_zu_druckregel.py:100-111 | terminates for every set of names (each round uses up a taken name) and returns the first unused name |
| `Druckregel.HoechsteSortierung` | alembic/versions/0226_verleih_autodruck_zu_druckregel.py:128-131 | the greatest sort order of the organisation, 0 if it has no rule |
| `Druckregel.NochOhneNeueRegel` | alembic/versions/0226_verleih_autodruck_zu_druckregel.py:123-125 | rules inserted for other organisations do not change whether an organisation counts as served |
| `Druckregel.Druckregeln.Upgrade` | alembic/versions/0226_verleih_autodruck_zu_druckregel.py:114-161 | names stay unique per organisation, old rules stay as they are, one rule per unserved organisation is appended in order, each sorted directly behind all earlier rules of its organisation under the first name they leave free, for exactly the toggled organisations nobody served, on the printer taken and active exactly when there is one; without the old column nothing happens |
| `Druckregel.JedeOrgMitDruckerDruckt` | alembic/versions/0226_verleih_autodruck_zu_druckregel.py:123-158 | every toggled organisation with a usable printer ends with an effective rule; no rule is added for any other organisation |
| `Vorlagen.VerschmelzenErhaelt` | alembic/versions/0025_deduplicate_suggestions.py:27-45 | merging a duplicate into the kept template of the same text keeps the set of (text, code) pairs, leaves no dangling junction row and no code twice |
| `Vorlagen.SchrittImZwischenstand` | alembic/versions/0025_deduplicate_suggestions.py:16-45 | each merge keeps the invariant of the run: only templates with a smaller twin are gone and their rows point to it |
| `Vorlagen.VorlagenTabelle.Aufteilen` | alembic/versions/0024_template_matrix.py:51-58 | after the split the junction means exactly what the column meant, with the old display order, whatever was in the junction before; a rerun after the column is gone changes nothing |
| `Vorlagen.VorlagenTabelle.Verschmelze` | alembic/versions/0025_deduplicate_suggestions.py:28-45 | the statement loop over the codes computes the declared merge |
| `Vorlagen.VorlagenTabelle.Deduplizieren` | alembic/versions/0025_deduplicate_suggestions.py:16-45 | exactly the template of smallest id of each text is left |
| `Vorlagen.VorlagenTabelle.Umschluesseln` | alembic/versions/0046_multitenancy_pr2_migrate.py:34-38 | every junction row whose code has a type gets the id of a type with that code; other columns stay |
| `Vorlagen.KetteErhaelt` | alembic/versions/0047_multitenancy_pr2_contract.py:89-91 | texts are unique with the smallest id kept, no row dangles, every row has an existing surrogate id (so NOT NULL can be set), and the (text, code) pairs read through surrogate ids are those of the old table |
| `Vorlagen.VorlagenTabelle.Kette` | alembic/versions/0046_multitenancy_pr2_migrate.py:26-38 | the same for the three loops run one after the other; the ids left are old ids with their old texts, the smallest of each text |
| `Vorlagen.BedeutungGenau` | alembic/versions/0046_multitenancy_pr2_migrate.py:26-38 | row by row: every old template has a row with its text and, through the surrogate id, its code, and every row comes from one |
| `Schemalauf.FuehreAus` | alembic/versions/0228_dienst_monitor.py:77-111 | the check-then-alter loop over a plan, on a connection that may break at any DDL statement or inside it |
| `Schemalauf.BleibtErledigt` | alembic/versions/0228_dienst_monitor.py:65-74 | a step that needs no statement any more never needs one again, whatever other step of the plan is executed |
| `Schemalauf.WeiterNachAbbruch` | alembic/versions/0228_dienst_monitor.py:65-111 | a run over the whole plan from the committed state equals running on from where the first run broke |
| `Schemalauf.WiederaufsetzbarUeberall` | alembic/versions/0228_dienst_monitor.py:65-111 | for any plan that never drops what it adds: a rerun after a break anywhere reaches what an uninterrupted run reaches |
| `Schemalauf.NochmalIstLeer` | alembic/versions/0228_dienst_monitor.py:65-111 | every check of a finished plan is satisfied and another run issues no statement |
| `Schemalauf.KarenzRichtig` | alembic/versions/0228_dienst_monitor.py:93-108 | in a plan that adds the grace period and takes over the old delays later, every row ends with the right value |
| `Schemaplaene.DienstMonitorWiederaufsetzbar` | alembic/versions/0228_dienst_monitor.py:77-111 | 0228 is resumable from every break and a no-op once finished: same tables, columns, named indexes, grace periods |
| `Schemaplaene.KarenzUebernommen` | alembic/versions/0228_dienst_monitor.py:93-108 | after any break and rerun each organisation's grace period is its old alert delay if that was not 15, else the value the column held, or 5 if the column is new; the old column is gone |
| `Schemaplaene.NachrichtenApiWiederaufsetzbar` | alembic/versions/0229_nachrichten_api.py:66-93 | 0229 is resumable from every break and a no-op once finished |
| `Schemalauf.SpaltenNachher` | alembic/versions/0228_dienst_monitor.py:65-111 | after a plan that never drops what it adds a table has its old columns and the planned ones without the dropped ones |
| `Schemalauf.IndizesNachher` | alembic/versions/0228_dienst_monitor.py:81-89 | and its old indexes as they were, with the planned ones it lacked |
| `Schemaplaene.FertigesSchema0228` | alembic/versions/0228_dienst_monitor.py:28-111 | the finished schema, column by column and index by index with unique flags, from any schema that has the three tables 0228 changes |
| `Schemaplaene.AndereTabellen0228` | alembic/versions/0228_dienst_monitor.py:77-111 | 0228 changes no table it does not name |
| `Schemaplaene.FertigesSchema0229` | alembic/versions/0229_nachrichten_api.py:30-93 | the finished schema of 0229 likewise |
| `Schemaplaene.AndereTabellen0229` | alembic/versions/0229_nachrichten_api.py:77-93 | 0229 changes no table it does not name |
| `Druckprotokoll.ZielImEigenenTrupp` | alembic/versions/0201_breathing_phase1_safety.py:41-46 | an entry goes to a member of its own troop, and to one with its own `member_id` whenever the troop has one; it has no target exactly when the troop is empty |
| `Druckprotokoll.WaehleZiel` | alembic/versions/0201_breathing_phase1_safety.py:42-44 | the list search finds that member, the one of smallest id |
| `Druckprotokoll.ReplayGenau` | alembic/versions/0201_breathing_phase1_safety.py:26-54 | said on the columns: each entry names the first member of its troop with its `member_id`, or the first of the troop when none has it; each pressure is that of the last entry, by time and id, that names the member, or its start pressure |
| `Druckprotokoll.OrderByTs` | alembic/versions/0201_breathing_phase1_safety.py:38-40 | all entries once, in (ts, id) order |
| `Druckprotokoll.EinEintragMehr` | alembic/versions/0201_breathing_phase1_safety.py:47-54 | one later entry moves only the pressure of its own member |
| `Druckprotokoll.LetzterDruckEindeutig` | alembic/versions/0201_breathing_phase1_safety.py:26-54 | the last-writer statement determines each pressure |
| `Druckprotokoll.Atemschutz.SpieleNach` | alembic/versions/0201_breathing_phase1_safety.py:41-54 | the loop stops at the first entry in order whose troop is empty, and otherwise assigns all entries |
| `Druckprotokoll.Atemschutz.Upgrade` | alembic/versions/0201_breathing_phase1_safety.py:26-54 | succeeds if and only if every entry's troop has a member; then each pressure is that of the last entry assigned to the member, or its start pressure, and each entry names its member; on failure no entry is assigned |

## Left out

- BackupProtokoll: creators of files other than this command and the lock file itself are outside the directory model; a producer that ends with success is taken to have written all it had to write; gzip, tar and the subprocess are opaque, and so are checks of free space (an arbitrary refusal) and the unseen pruning functions.
- BackupNamen: a stem is plain text without glob characters, and `\d` is taken as the ten ASCII digits.
- NamensSlug.Slug: does not say that slugging twice is slugging once, because the cut at 60 characters can leave a trailing hyphen.
- KontaktDedupe.Datenbank.Upgrade: does not say that a second run changes nothing; an exact merge into another person group can make a group adoptable later. The downgrade of 0188 (dropping the unique key) is not modelled.
- MemberMerge.Datenbank.MergeMembers: assumes no one-column unique key on a reference column; `Tabellen.SchrittGenauDannGueltig` says exactly when the step is safe with one. Foreign-key cascades of the reference tables are not modelled.
- DoppelFahrten.Fahrzeugpark.BereinigeFahrten: starts from the member table as the merge leaves it; that the merge redirects the role columns of `fahrt` is stated on the generic tables of MemberMerge.
- FahrtNamen: log messages are left out, and so is the token splitting inside `_normalisiere`, of which nothing is needed.
- DoppelFahrten: tables that lack one of the compared columns are not modelled; all thirteen columns are taken to exist.
- UniqueTausch: the SQLite branch and the downgrade of 0224's schema are not modelled.
- Telefone.AbUndAufLesbar: a corollary for readable entries only; `Telefone.FreigabeBleibtGenauDann` and `Telefone.ZeileBleibtGenauDann` cover every list.
- Telefone: numbers and labels inside JSON objects are given as the strings that `str` makes of them.
- Druckregel: timestamps, filters, fallback printer and the number of copies of a new rule are constants of the code and left out; so is its downgrade.
- Vorlagen: creating the junction tables, dropping foreign keys and `display_order`, and filling `alarm_type.org_id` are left out; one of the three template tables stands for all as far as texts, codes and ids go. For `default_message` the source copies 0 as display order and takes `due_after_sec` along (0024, lines 98-107), which is not modelled.
- Schemalauf: column types, defaults other than that of the grace period, and foreign-key constraints are not part of the schema; the downgrades are left out.
- Druckprotokoll: adding the columns and the foreign key of 0201 is left out; the RuntimeError rolls the replay back to the state after the ALTER TABLE.
- Restore test, remote upload, key handling and printing of results in `app/cli.py`: plumbing around subprocesses and the network.
- `app/main.py`, `app/config.py`, `app/db.py`, `app/log_buffer.py` and all other migrations: wiring or single statements, which would only add easy members.
- Clean-up of `bma_import_satz` columns in 0186 (lines 61-75): single statements after the id loop.
