# strds, modelled in Dafny

strds builds a dataset of Python callables that use `str`. The steps are:

1. Mine PyPI and GitHub for candidate projects.
2. Clone each project and parse every Python file into a tree of entities:
   repository → module → function / class → method → parameter.
3. Run a pipeline of filters over each repository and keep the repositories that still have
   modules.
4. Save the dataset as JSON, and load it back sorted by name at every level.

Around the dataset sit these helpers:

- Pynguin project lists, written and read back as XML.
- Dataset statistics and filtering against such a list.
- A provider that writes each callable to its own file.
- The CSV reader for the project list.

This project models that core as Dafny datatypes, functions and methods, and proves what the
code promises about it. Python's `ast` nodes become the datatypes of module `Syntax`. Each
node carries its raw line and column, its annotation text and its source span. Python
dictionaries whose order matters are insertion-ordered association lists with Python's
semantics: the last write for a key wins, and a key keeps its first position (module
`PyDict`). `sorted` is a stable insertion sort by key (module `Ordering`). Its result is
proved sorted, a permutation, stable, and the only sorted stable rearrangement. Strings
compare as Python compares them, code point by code point.

Modules, one per source file plus shared ones:

- `Common`, `Text`, `PyDict`, `Ordering`: sequences, `Result`/`Option`, Python `split`/`join`,
  dictionaries and `sorted`.
- `Syntax`, `Extraction`, `Creation`: `src/strds/dataset.py`.
- `Filters`: `src/strds/utils/filter.py`.
- `JsonData`, `Structure`: `src/strds/utils/structure.py`. Its dataclasses and `from_dict`
  family are identical to those of `src/strds/structure.py`, so they are defined once.
- `LegacyStructure`: the unsorted `load_from_json_file` of `src/strds/structure.py`.
- `PynguinXml`: `src/strds/utils/pynguin_xml.py`.
- `Stats`: `src/strds/stats.py`.
- `Provide`: `src/strds/provide.py`.
- `Mine`: `src/strds/mine.py`.
- `FlapyCsv`: `src/strds/utils/flapy_csv_utils.py`.

Loops in the source are methods with loop invariants, each proved equal to a specification
function. The properties are then proved about those functions. Operations that mutate the
tree in place (the filters, `sort`, `apply`) take the old value and return the new one.

Three behaviours of the code that are easy to misread:

- A file whose path cannot be made relative to the root is skipped, like any other failing
  file. It does not abort the repository, because `parse_repository` catches every exception
  per file.
- `save_to_json_file` writes a bare list of repositories, not a `Dataset` object.
- A repository's `pypi_tag` can be absent. `parse_repository` stores `matching or latest`,
  which is `None` when both CSV cells are blank, and the requirements file then reads
  `name==None`.

## Model

| member | source | states |
|---|---|---|
| Text.PathStrKeeps | src/strds/utils/structure.py:84 | the normal form keeps the anchor and the proper components of a path |
| Text.PathStrIdempotent | src/strds/utils/structure.py:84 | a normal path is its own normal form |
| Text.PathStrDropsEmpty | src/strds/utils/structure.py:84 | an empty component between two slashes is dropped |
| Text.PathStrDropsDot | src/strds/utils/structure.py:84 | a leading `./` is dropped |
| Text.DotComponentDropped | src/strds/provide.py:72-74 | a `.` component between proper components is dropped |
| Text.Utf8LenAscii | src/strds/dataset.py:25-31 | the parser's byte offset equals the character offset exactly when the characters before it are ASCII |
| Extraction.ParameterCursor | src/strds/dataset.py:25-31 | for a name at character `k`, the column reported is at least `k + 1`, is `k + 1` exactly when the prefix is ASCII, and then the name starts at the cursor |
| Extraction.CallableCursor | src/strds/dataset.py:34-41 | for `def`, blanks, then a name at character `k`, the column reported is at least `k + 5`; with an ASCII prefix the name starts at the cursor exactly when one blank follows `def` |
| Extraction.FunctionSignatureNamesIt | src/strds/dataset.py:34-46 | a function's column is the raw column + 5, its line is the node's line unchanged, and its signature starts with `name(` |
| Extraction.ExtractInfoParameters | src/strds/dataset.py:49-56 | each parameter copies the name, line and annotation of the positional argument at the same index; other argument kinds are never read |
| Extraction.MethodIsQualifiedFunction | src/strds/dataset.py:94-107 | a method is the callable `parse_function` (lines 59-71) builds, whose full signature equals its signature, with both signatures prefixed by `Class.`; it is a constructor exactly when it is named `__init__` |
| Extraction.ParseClass | src/strds/dataset.py:74-91 | the loop over the class body builds the class specification: methods from `def`s, bases that are bare names, assigned bare names |
| Extraction.ClassMembers | src/strds/dataset.py:74-91 | one method per direct `def`, superclasses exactly the bare-name bases, fields exactly the bare names assigned in the body |
| Extraction.CraftSignature | src/strds/dataset.py:110-126 | the loop that appends parameters builds `name(p1, p2) -> type`, the arrow only with a non-empty return type |
| Extraction.SignatureShape | src/strds/dataset.py:110-126 | the signature starts with `name(` and ends with `)` or `) -> type` |
| Extraction.SignatureName | src/strds/dataset.py:110-126 | for a name without `(`, the signature's first `(` comes right after the name |
| Extraction.ParamsSplit | src/strds/dataset.py:110-126 | splitting the parameter list at its commas gives back one piece per parameter, in order: no stray or trailing separator |
| Extraction.Segment | src/strds/dataset.py:129-137 | the body is the source text the node spans, and empty when the span is missing or out of range |
| Extraction.RelativeTo | src/strds/dataset.py:140-157 | the relative path exists exactly when the root is a prefix of the file's path |
| Extraction.RelativeToIsPathStr | src/strds/dataset.py:140-157 | a relative path built from proper components is already in `Path`'s normal form, so decoding a freshly extracted module keeps its path |
| Extraction.RelativeToRoundTrip | src/strds/dataset.py:140-157 | the relative path splits at `/` back into the components below the root |
| Extraction.NameStem | src/strds/dataset.py:140-157 | the stem is the file name with at most its last suffix removed |
| Extraction.StemOfPyFile | src/strds/dataset.py:140-157 | the module of `dir/base.py` is named `base` |
| Extraction.ModuleSpec | src/strds/dataset.py:140-157 | a file that does not parse gives its error; a module gets the file's stem and relative path |
| Extraction.ParseModule | src/strds/dataset.py:140-157 | the loop over top-level statements builds the module specification |
| Extraction.ModuleFunctions | src/strds/dataset.py:140-157 | the module's functions are exactly the top-level `def`s: each gives one, and nothing else does |
| Extraction.ModuleClasses | src/strds/dataset.py:140-157 | the module's classes are exactly the top-level class definitions |
| Extraction.DefNodes | src/strds/dataset.py:140-157 | the nodes collected are exactly the plain `def` statements; `async def` is not one |
| Extraction.ClassNodes | src/strds/dataset.py:140-157 | the class nodes collected are exactly the class definitions |
| Creation.PypiTag | src/strds/dataset.py:160-177 | the tag is the matching GitHub tag when it is non-blank, else PyPI's latest tag |
| Creation.ParseRepository | src/strds/dataset.py:160-177 | the loop over files keeps the modules of the files that parse, in walk order |
| Creation.SkipsFailingFile | src/strds/dataset.py:160-177 | a file that fails leaves the repository as if the file were not there |
| Creation.AllFilesParsed | src/strds/dataset.py:160-177 | when every file parses there is one module per file, in order |
| Creation.ModulesFromFiles | src/strds/dataset.py:160-177 | every module comes from one of the repository's files |
| Creation.ParseAndFilter | src/strds/dataset.py:190-193 | one project's turn: parse the repository, then run the filters on it |
| Creation.CreateDataset | src/strds/dataset.py:180-200 | the saved repositories are the filtered ones that still have modules, in project order |
| Creation.DatasetKeepsOrder | src/strds/dataset.py:189-197 | the saved repositories are a subsequence of the filtered repositories |
| Creation.DefaultDatasetUsesStr | src/strds/dataset.py:231-241 | with the command line's default filters, every saved module has content and uses `str` throughout |
| Creation.ApplyAsWritten | src/strds/dataset.py:185-193 | with no filter list, `apply` fails exactly when it is given `None` |
| Creation.DefaultFiltersRaise | src/strds/dataset.py:185-193 | with the default `filters=None`, creating a dataset from any project fails |
| Creation.DatasetAgrees | src/strds/dataset.py:180-200 | with a filter list, the code as written saves what the model saves |
| Filters.ApplyEmptyFilter | src/strds/utils/filter.py:26-37 | the loops over modules and classes compute the empty-dropping function |
| Filters.DropEmptyPost | src/strds/utils/filter.py:26-37 | afterwards every module has a class or function and every class a method; a module stays exactly when it has content once its empty classes are gone |
| Filters.DropEmptyKeeps | src/strds/utils/filter.py:26-37 | survivors keep their order; repository fields, functions and surviving classes are untouched |
| Filters.DropEmptyIdempotent | src/strds/utils/filter.py:26-37 | applying EmptyFilter twice is applying it once |
| Filters.ApplyNoStringTypeFilter | src/strds/utils/filter.py:44-61 | the loops compute the `str`-keeping function |
| Filters.KeepStringTypedPost | src/strds/utils/filter.py:44-61 | a function or method stays exactly when a parameter or the return type is exactly `str`; modules and classes all stay, with their names and positions |
| Filters.KeepStringTypedIdempotent | src/strds/utils/filter.py:44-61 | applying NoStringTypeFilter twice is applying it once |
| Filters.ApplyFilter | src/strds/utils/filter.py:14-61 | `filter.apply` dispatches to the filter's own rewrite |
| Filters.StrThenEmptyPost | src/strds/utils/filter.py:26-61 | NoStringTypeFilter then EmptyFilter leaves only modules with content whose callables all use `str` |
| Filters.DefaultPipelinePost | src/strds/utils/filter.py:26-61 | the same, stated for the filter pipeline `[NoStringTypeFilter, EmptyFilter]` |
| Filters.EmptyFilterKeepsClassesWithMethods | src/strds/utils/filter.py:26-37 | EmptyFilter alone keeps every class that has a method, whatever its types |
| Filters.FilterOrderMatters | src/strds/utils/filter.py:26-61 | one repository where the two filter orders differ: one order removes the class, the other leaves it without methods |
| Filters.GetAllFilters | src/strds/utils/filter.py:63-74 | the loop over the module's classes registers each Filter subclass under its lower-cased name |
| Filters.DiscoverFindsAll | src/strds/utils/filter.py:63-74 | every Filter subclass is registered |
| Filters.RegistryDiscovered | src/strds/utils/filter.py:63-74 | for the filter module the registry holds exactly `emptyfilter` and `nostringtypefilter`, and not the base class |
| Filters.FromString | src/strds/utils/filter.py:82-88 | a name is known exactly when its lower-cased form is registered; otherwise the error is `Unknown filter: <name>` |
| Filters.FromStringCases | src/strds/utils/filter.py:82-88 | the lookup ignores case and knows only the two filter names |
| Filters.FromStrings | src/strds/utils/filter.py:91-95 | all names known gives one filter per name in order; otherwise the first unknown name's error |
| Filters.CreateFilters | src/strds/utils/filter.py:91-95 | a string is split on `,` and a list is used as it is, then each name is looked up |
| Filters.DefaultFilters | src/strds/dataset.py:231-241 | the default option value names the two filters in the order they then run |
| Structure.Apply | src/strds/utils/structure.py:48-59 | the loop rebinding the repository runs the filters left to right, each on the previous output; the older `apply` in src/strds/structure.py:35-46 is the same fold |
| Structure.PipelineAppend | src/strds/utils/structure.py:48-59 | running two filter lists in turn is running their concatenation |
| Structure.PipelineFirst | src/strds/utils/structure.py:48-59 | the first filter sees the original repository |
| Structure.ParameterFromJson | src/strds/utils/structure.py:205-212 | a missing name fails; a missing `type` becomes None |
| Structure.CallableFromJson | src/strds/utils/structure.py:125-139 | missing required keys fail; missing parameters become empty, `return_type` None, `annotations` ""; the older `Callable.from_dict` in src/strds/structure.py:88-102 applies the same defaults |
| Structure.CallableRoundTrip | src/strds/utils/structure.py:150-153 | `Function.from_dict` reads back every field of a saved function |
| Structure.MethodFromJson | src/strds/utils/structure.py:161-166 | a method is the callable plus `is_constructor`, which defaults to False; the older `Method.from_dict` in src/strds/structure.py:120-125 does the same |
| Structure.ClassFromJson | src/strds/utils/structure.py:178-185 | a missing name fails; missing methods, superclasses and fields become empty; the older `Class.from_dict` in src/strds/structure.py:137-144 applies the same defaults |
| Structure.ModuleFromJson | src/strds/utils/structure.py:80-87 | missing name or path fails; the path is kept in `Path`'s normal form (empty and `.` components dropped), so it is normal; missing functions and classes become empty; the older `Module.from_dict` in src/strds/structure.py:58-65 applies the same defaults |
| Structure.RepositoryFromJson | src/strds/utils/structure.py:38-46 | missing name, url, tag or commit fails; missing modules become empty; the older `Repository.from_dict` in src/strds/structure.py:25-33 applies the same defaults |
| Structure.ParameterRoundTrip | src/strds/structure.py:153-160 | decoding an encoded parameter gives it back |
| Structure.MethodRoundTrip | src/strds/utils/structure.py:161-166 | decoding an encoded method gives it back |
| Structure.ClassRoundTrip | src/strds/utils/structure.py:178-185 | decoding an encoded class gives it back |
| Structure.ModuleRoundTrip | src/strds/utils/structure.py:80-87 | decoding an encoded module whose path is in normal form gives it back |
| Structure.RepositoryRoundTrip | src/strds/utils/structure.py:38-46 | decoding an encoded repository whose module paths are normal gives it back |
| Structure.RepositoryListFromJson | src/strds/utils/structure.py:235-240 | one repository per list item, each the decoding of that item |
| Structure.RepositoryListRoundTrip | src/strds/utils/structure.py:215-232 | loading what was saved gives back the same repositories in the same order, when their module paths are normal (as every loaded one is) |
| Structure.SaveAfterLoad | src/strds/utils/structure.py:215-232 | saving what was loaded and loading it again gives the same result |
| Structure.SortCallable | src/strds/utils/structure.py:141-143 | parameters are sorted by name |
| Structure.SortClass | src/strds/utils/structure.py:187-193 | methods are sorted, then sorted by name; superclasses and fields are sorted |
| Structure.SortModule | src/strds/utils/structure.py:89-96 | functions and classes are sorted, then sorted by name |
| Structure.SortRepository | src/strds/utils/structure.py:61-65 | modules are sorted, then sorted by name |
| Structure.SortDataset | src/strds/utils/structure.py:21-25 | repositories are sorted, then sorted by name |
| Structure.DatasetSortIsSorted | src/strds/utils/structure.py:21-25 | after sorting, every list at every level is non-decreasing by name |
| Structure.ClassSortIsSorted | src/strds/utils/structure.py:187-196 | a sorted class has its methods, superclasses and fields in name order |
| Structure.ModuleSortIsSorted | src/strds/utils/structure.py:89-99 | a sorted module has its functions and classes in name order |
| Structure.RepositorySortIsSorted | src/strds/utils/structure.py:61-68 | a sorted repository has its modules in name order |
| Structure.DatasetSortFixesSorted | src/strds/utils/structure.py:21-25 | a dataset sorted at every level is left unchanged |
| Structure.DatasetSortIdempotent | src/strds/utils/structure.py:21-25 | sorting twice is sorting once |
| Structure.DatasetSortPermutes | src/strds/utils/structure.py:21-25 | sorting keeps the same repositories, and equally named ones keep their relative order |
| Structure.RepositorySortKeepsMetadata | src/strds/utils/structure.py:61-65 | sorting changes no repository field, only the order inside its lists |
| Structure.LoadFromJson | src/strds/utils/structure.py:235-240 | loading succeeds exactly when decoding does, and the dataset is sorted at every level |
| Structure.LoadAfterSave | src/strds/utils/structure.py:222-240 | loading what was saved gives the sorted dataset of those repositories, when their module paths are normal |
| LegacyStructure.LoadFromJson | src/strds/structure.py:183-187 | the older load keeps the file's order, and sorting its result gives the newer load |
| LegacyStructure.LoadAfterSave | src/strds/structure.py:170-187 | loading what was saved gives back exactly that list, nothing reordered, when the module paths are normal |
| Ordering.SortByIsSorted | src/strds/utils/structure.py:67-68 | `sorted` by name leaves the list non-decreasing under Python's string order |
| Ordering.SortByIsStable | src/strds/utils/structure.py:110-111 | `sorted` keeps the relative order of elements with the same name |
| Ordering.SortByUnique | src/strds/utils/structure.py:21-25 | any sorted, stable rearrangement of a list is `sorted`'s result |
| Ordering.LessTotal | src/strds/utils/structure.py:195-196 | two names are equal or one is smaller: string `<` is a total order |
| PynguinXml.DottedPath | src/strds/utils/pynguin_xml.py:41-43 | the dotted name has no `/` and is as long as the path without its suffix |
| PynguinXml.DottedPathOfPyFile | src/strds/utils/pynguin_xml.py:41-43 | the file `a/b/c.py` is the module `a.b.c` |
| PynguinXml.NamelessDottedPath | src/strds/utils/pynguin_xml.py:41-43 | the paths `.` and `/` have no name, where `with_suffix` raises; here their dotted name is `.` |
| PynguinXml.ExtractedModuleHasName | src/strds/dataset.py:140-157 | a module extracted from a file below the root has a path with a name, so `with_suffix` does not raise on it |
| PynguinXml.CreatePynguinProject | src/strds/utils/pynguin_xml.py:30-38 | name, URL and version are the repository's, sources are `projects/<name>`, and there is one dotted module name per module in order |
| PynguinXml.ProjectsByNameKeyed | src/strds/utils/pynguin_xml.py:24-27 | the dict has one key per repository name, each project under its own name |
| PynguinXml.ProjectsByNameHolds | src/strds/utils/pynguin_xml.py:24-27 | under a name is the project of the last repository with that name |
| PynguinXml.ProjectsByNameMissing | src/strds/utils/pynguin_xml.py:24-27 | a name no repository has is absent |
| PynguinXml.WriteProject | src/strds/utils/pynguin_xml.py:52-64 | a project element lists its fields and its modules in sorted order |
| PynguinXml.WriteXml | src/strds/utils/pynguin_xml.py:46-67 | the loop writes every project with modules, in the dict's order, and skips the rest |
| PynguinXml.CreatePynguinXmls | src/strds/utils/pynguin_xml.py:24-27 | the tree written for a dataset is that of its projects keyed by name |
| PynguinXml.Find | src/strds/utils/pynguin_xml.py:90-116 | a child found has the tag asked for |
| PynguinXml.FindAt | src/strds/utils/pynguin_xml.py:90-116 | `find` returns the first child with the tag |
| PynguinXml.GetText | src/strds/utils/pynguin_xml.py:70-74 | the element's text, and "" for an absent element or absent text |
| PynguinXml.ParseModules | src/strds/utils/pynguin_xml.py:77-87 | nothing for an absent element, else each child's text in order |
| PynguinXml.ReadProject | src/strds/utils/pynguin_xml.py:98-114 | one project element read field by field |
| PynguinXml.ReadXml | src/strds/utils/pynguin_xml.py:90-116 | the loop keys each project by its name text; a later duplicate replaces an earlier one |
| PynguinXml.ProjectElementRoundTrip | src/strds/utils/pynguin_xml.py:46-116 | reading a written project element gives the project back, with sorted modules and an absent version read as "" |
| PynguinXml.ReadAfterWrite | src/strds/utils/pynguin_xml.py:46-116 | reading back what was written finds under each name the normalised project if it had modules, and nothing otherwise |
| Stats.CountModulesKeys | src/strds/stats.py:60-69 | one key per repository name, and nothing else |
| Stats.CountModulesLast | src/strds/stats.py:60-69 | the count under a name is the module count of the last repository with that name |
| Stats.ProjectsDictHas | src/strds/stats.py:72-92 | a name is in the project dict exactly when some CSV project has it |
| Stats.GetProjectStats | src/strds/stats.py:93-125 | the loop emits one row per repository the CSV lists, in dataset order, with its module count and tag |
| Stats.StatsRowListed | src/strds/stats.py:93-125 | every row names a dataset repository with that tag, and the CSV lists that name |
| Stats.StatsRowFor | src/strds/stats.py:93-125 | every dataset repository the CSV lists gets a row |
| Stats.StatsOfDistinctNames | src/strds/stats.py:93-125 | with distinct names, each row counts its own repository's modules |
| Stats.GithubLanguagesRaise | src/strds/stats.py:99-104 | as written, the statistics fail exactly when some repository would get a row |
| Stats.FilterDatasetWithXml | src/strds/stats.py:130-167 | the loop builds a new dataset of the listed repositories, each restricted to its listed modules |
| Stats.KeptFrom | src/strds/stats.py:141-164 | a kept repository is the restriction of a listed dataset repository |
| Stats.FilterKeepsListed | src/strds/stats.py:141-164 | kept repositories are listed, keep their fields, and keep in order exactly their listed modules |
| Stats.FilterIdempotent | src/strds/stats.py:130-167 | filtering twice by the same list is filtering once |
| Stats.OwnXmlEntry | src/strds/stats.py:130-167 | with distinct names, a dataset's own project list names a repository exactly when it has modules, and all of them |
| Stats.FilterWithOwnXml | src/strds/stats.py:130-167 | filtering a dataset by its own project list only drops repositories without modules |
| Provide.MethodPathParts | src/strds/provide.py:72-74 | the path is printed in `Path`'s normal form; when the repository, module and class names are each one component (not empty, not `.`, no `/`), a method's file is `repo/module/class/method.py` |
| Provide.FunctionPathParts | src/strds/provide.py:77-79 | the path is printed in `Path`'s normal form; with one-component repository and module names, a function's file is `repo/module/function.py` |
| Provide.MethodAndFunctionPathsDiffer | src/strds/provide.py:72-79 | with one-component names, a method's file and a function's file never coincide |
| Provide.DotModuleSharesFile | src/strds/provide.py:72-79 | a module named `.` adds no directory, so method `m` of class `C` in it and function `m` of module `C` share one file |
| Provide.MethodPathInjective | src/strds/provide.py:72-74 | with one-component names, two methods share a file only when all four names agree |
| Provide.RemoveTypeAnnotations | src/strds/provide.py:24-51 | the rewriter's output, or the code unchanged when the rewrite fails |
| Provide.SaveCallable | src/strds/provide.py:82-90 | the file is written at its path with the code itself, or the code without annotations |
| Provide.ExtractCallables | src/strds/provide.py:54-69 | the nested loops write repository by repository and module by module |
| Provide.ExtractRepository | src/strds/provide.py:56-69 | one repository's modules are written in order |
| Provide.ExtractModule | src/strds/provide.py:58-69 | a module's class methods are written first, then its functions |
| Provide.ExtractClasses | src/strds/provide.py:59-64 | classes are written in order |
| Provide.ExtractClass | src/strds/provide.py:60-64 | a class's methods are written in order |
| Provide.ExtractFunctions | src/strds/provide.py:65-69 | a module's functions are written in order |
| Provide.ModuleWriteMember | src/strds/provide.py:54-69 | a module's writes are exactly the saves of its class methods and its functions |
| Provide.ModuleWritesOrder | src/strds/provide.py:54-79 | with one-component names, every method file comes before every function file, and the functions keep their order |
| Provide.RepositoryWriteMember | src/strds/provide.py:54-69 | a write belongs to a repository exactly when it saves a callable of one of its modules |
| Provide.RequirementsParts | src/strds/provide.py:93-96 | the requirements text is the name, `==`, and the tag, which can be read back |
| Provide.SaveRepository | src/strds/provide.py:99-111 | each file is rewritten without annotations when asked, then the requirements file is written |
| Mine.GithubUrlRoundTrip | src/strds/mine.py:209-238 | every URL of the intended shape passes both checks and splits back into its owner and repo |
| Mine.GithubRepoUrlShape | src/strds/mine.py:209-218 | every URL the intended check accepts has that shape |
| Mine.ExtractGithubOwnerRepo | src/strds/mine.py:221-238 | fails exactly when no `/` remains after one trailing `/` is removed; otherwise the last two segments |
| Mine.ExtractRepoUrl | src/strds/mine.py:221-238 | a repository URL, with or without its trailing `/`, splits into its owner and repo |
| Mine.TrailingNewlineUrl | src/strds/mine.py:26 | the regex as written accepts `…/owner/repo/` plus a newline, and extraction then gives the repo and a newline |
| Mine.SliceTo | src/strds/mine.py:143-146 | Python's `[:n]`: a prefix, of length `n` (clamped), or `n` short of the end when `n` is negative |
| Mine.FetchTopPypiPackages | src/strds/mine.py:126-149 | no data gives nothing; at most one name per row, and at most `top_n` names |
| Mine.TopPackagesFromRows | src/strds/mine.py:143-146 | the names come in order from the first `top_n` rows, each from a row that has a project |
| Mine.TopPackagesComplete | src/strds/mine.py:143-146 | no row is skipped unless it lacks a project: each of the first `top_n` rows that has one gives its name, at the position counted by the named rows before it |
| Mine.TopPackagesAllNamed | src/strds/mine.py:143-146 | when every row has a project, all of the first `top_n` rows give a name |
| Mine.Dated | src/strds/mine.py:191-202 | exactly the releases whose first file has an upload time, in order |
| Mine.MaxIndexIsFirstMax | src/strds/mine.py:204-206 | `max` picks an upload time no other one exceeds, and the first of equal ones |
| Mine.GetLatestPypiTag | src/strds/mine.py:177-206 | fails when there are no releases or none is dated; otherwise a dated release |
| Mine.LatestIsNewest | src/strds/mine.py:177-206 | the tag's upload time is ≥ every dated release's, and > every earlier one's |
| Mine.LatestBeatsEveryRelease | src/strds/mine.py:177-206 | no release with files was uploaded later than the chosen one |
| Mine.VersionMatchesPrefixed | src/strds/mine.py:308-322 | any number of `v`s, then the version, then anything, matches |
| Mine.VersionMatchShape | src/strds/mine.py:308-322 | for a version without `.`, a match is exactly `v`s followed by the version |
| Mine.MatchPypiGitTag | src/strds/mine.py:308-322 | the first matching tag, or "" when no tag matches |
| Mine.TagSearch | src/strds/mine.py:298-304 | a found tag is one path segment: it holds no `/` |
| Mine.FoundTagsMember | src/strds/mine.py:298-305 | the tag set is exactly the tags found on the lines |
| Mine.SortTags | src/strds/mine.py:305 | the tags sorted, each tag exactly once |
| Mine.GetGitTags | src/strds/mine.py:270-305 | as written: the sorted, duplicate-free tags of the pieces between literal `\n` pairs |
| Mine.AsWrittenFindsOneTag | src/strds/mine.py:298-305 | as written, output without a backslash yields at most one tag |
| Mine.GitTagsFindingAsWritten | src/strds/mine.py:298-305 | as written, two ref lines yield only the first tag |
| Mine.GetGitTagsPerLine | src/strds/mine.py:270-305 | corrected: the sorted, duplicate-free tags of the output's lines |
| Mine.GitTagsFindingPerLine | src/strds/mine.py:298-305 | corrected, two ref lines yield both tags |
| FlapyCsv.ParseOptionalField | src/strds/utils/flapy_csv_utils.py:68-70 | absent exactly when the cell is blank; otherwise the cell unstripped |
| FlapyCsv.ParseListField | src/strds/utils/flapy_csv_utils.py:28-37 | items only for a bracketed cell that evaluates to a list, and then exactly those items |
| FlapyCsv.ParseDictField | src/strds/utils/flapy_csv_utils.py:40-49 | entries only for a braced cell that evaluates to a dict, and then exactly those entries |
| FlapyCsv.Cell | src/strds/utils/flapy_csv_utils.py:73-94 | a missing column raises; otherwise the cell's text |
| FlapyCsv.ProjectFromRow | src/strds/utils/flapy_csv_utils.py:52-93 | a project exists exactly when the row has all twelve columns and its response code does not overflow `int(float(...))`; each field is its own column's cell, verbatim or through the optional, list or dict parser; an overflow after the first eight columns is the OverflowError, and otherwise the first missing column is the KeyError |
| FlapyCsv.ParseCsv | src/strds/utils/flapy_csv_utils.py:73-94 | projects are read exactly when every row has every column and no response code overflows, and then one per row in file order, each the project of its row; the first row that fails stops the read |
| JsonData.FromOptString | src/strds/utils/structure.py:215-219 | `str or None` written to JSON reads back as itself |
| JsonData.OptionalString | src/strds/utils/structure.py:125-139 | `data.get(key, default)`: the default for a missing key |

## Left out

- Python's `ast`: parsing and unparsing are replaced by the node datatypes of `Syntax`. Annotation
  text arrives already unparsed, and a node's source segment is a span into the file's text.
  `_line_offset` is the identity, so the line number is copied where it is used.
- File system and serialisation: the directory walk, file reads and writes, the JSON encoder and
  decoder, and ElementTree. The model works on the decoded values and the element tree.
  `PathEncoder` is the string form of a path stored in `Module.filePath`.
- The network and concurrency: the PyPI and GitHub requests, `resolve_url`'s retries and
  sleeps, the thread pool and `random.sample` in `sample_pypi_projects`, `fetch_all_pypi_projects`,
  `_get_pypi_metadata`, `_fetch_github_languages` and `_fetch_projects`. Their results are
  parameters (for example the rows given to `FetchTopPypiPackages`, or the optional output of
  `git ls-remote` given to `GetGitTags`).
- `get_git_path`, `try_default`, the pseudo-credentials search URL and the git subprocess of
  `_get_git_tags`: only the parsing of its output is modelled.
- `src/strds/utils/clone_projects.py` (GitPython cloning and checkout). A cloned project is the
  `Creation.LocalProject` record with the files found under it.
- Floating point: the language percentages, the MB columns of `get_project_stats`,
  the values of `parse_int_field` and `parse_float_field`, the numeric `FlaPyProject` columns
  and `src/strds/utils/latex.py`. The one failure of `parse_int_field` that escapes, the
  OverflowError of `int(float(field))` on an infinite cell (`inf`, `-Infinity`, `1e999`), is
  modelled: whether `float` reads a cell as infinite is the `infinite` parameter of
  `FlapyCsv.ProjectFromRow`.
- pandas (`_filter_projects`, `to_csv`), `has_specified_language`, `print_table` and every click
  command line. The `dataset` command's default filter option is modelled.
- The libcst transformer inside `remove_type_annotations`: it is a parameter, and only the
  fall-back to the input on failure is modelled.
- `inspect` reflection in `get_all_filters`: the module's classes are given as a list.
- Filters that exist only in the tests (`PrivateModuleFilter`, `TestModuleFilter`,
  `NonCoreModuleFilter`) have no source to model.
- In-place mutation and aliasing: the filters, `sort` and `apply` return a new value. A caller
  that keeps the old object would see it changed in Python, and this is not modelled.
- `ast.literal_eval` in the CSV reader is a parameter of type string to result.
- Mine.VersionMatch: only `.` in a version is a regex metacharacter. Other metacharacters
  (`+`, `*`, `[`, …) are matched literally, which differs from `re.match` on such versions.
- Mine.UploadTime: an upload time is a string. Python's `str()` of a non-string value is not
  modelled, and a release value that is not a list is not modelled.
- Mine.FetchTopPypiPackages: the JSON rows are string dictionaries; other value types in a row
  are not modelled.
- Mine.TagSearch: the regex `tags/.*[0-9]+` is modelled on one line at a time, from the
  leftmost `tags/` to the last digit before the line's end.
- Stats.GetProjectStats: the rows hold only the non-float columns.
- JsonData.AsString: a value that is not a JSON string is an error here; Python's `from_dict`
  copies whatever value it finds (`{"name": 5}` yields a name that is the number 5). Typed fields
  are the model's choice, and a mistyped value is an error instead of a wrongly typed field.
- JsonData.AsInt: a value that is not a JSON integer is an error, for the same reason.
- JsonData.AsOptString: a value that is neither a string nor `null` is an error, for the same
  reason.
- JsonData.RequiredString: a present value of the wrong type is an error, for the same reason.
- JsonData.RequiredInt: a present value of the wrong type is an error, for the same reason.
- JsonData.OptionalString: a present value of the wrong type is an error, for the same reason.
- Structure.StringList: a value that is not a list of strings is an error, for the same reason;
  Python iterates over any iterable it is given.
- Structure.MethodFromJson: an `is_constructor` that is not a boolean is an error; Python keeps
  any value (`"is_constructor": 1` yields 1).
- Structure.ModuleRoundTrip, Structure.RepositoryRoundTrip, Structure.RepositoryListRoundTrip,
  Structure.LoadAfterSave and LegacyStructure.LoadAfterSave: a module path that is not in
  `Path`'s normal form (`pkg//m.py`, `./m.py`) is saved as written but read back normalised,
  so the round trip holds for normal paths only; every path that was loaded or extracted is
  normal.
- Provide.MethodAndFunctionPathsDiffer: holds only for repository, module and class names that
  are one path component each. A module named `.` (the stem of `..py`) or an empty name adds no
  directory, and then a method's file can be a function's file (Provide.DotModuleSharesFile).
- Provide.MethodPathInjective: holds only for one-component names, for the same reason.
- FlapyCsv.ProjectFromRow: a row is a dictionary of strings. Python's `csv.DictReader` gives
  `None` for the missing trailing cells of a short row; `parse_optional_field(None)` then raises
  AttributeError, while a `None` list or dict cell becomes empty. A `None` cell is not modelled.
- PynguinXml.DottedPath: a path without a name (`.`, `/`, `//`, or the `.` that `Path("")`
  becomes when a module is loaded with `"file_path": ""`) gives the dotted name `.`, where
  `with_suffix("")` raises ValueError; `create_pynguin_project`, `create_pynguin_xmls` and the
  statistics over pynguin modules would then raise. Extraction never produces such a path
  (PynguinXml.ExtractedModuleHasName), so only a loaded dataset can hold one.
- FlapyCsv.ParseListField and FlapyCsv.ParseDictField: `literal_eval` can raise a TypeError the
  source does not catch (an unhashable dict key, as in `[{[]: 1}]`); here every failure of the
  `eval` parameter is one the source catches.
- Extraction.ParameterCursor and Extraction.CallableCursor: the cursor columns are stated in
  characters. The parser's offsets count UTF-8 bytes, so after a non-ASCII character the column
  reported is past the name; the two lemmas state by how much it can be off.

## Findings

| source | as written | input that shows it | evidently intended | confidence | as-written member | corrected member |
|---|---|---|---|---|---|---|
| src/strds/dataset.py:185-193 | `filters` defaults to `None`, and `repository.apply(filters)` iterates it | `create_dataset` called without filters on any non-empty project list | no filter list runs no filter | high, not executed | Creation.DefaultFiltersRaise | Creation.CreateDataset |
| src/strds/stats.py:99-104 | reads `project.github_languages`, a field `FlaPyProject` does not have | any dataset repository whose name a CSV project has | the language columns read from a field that exists | high, not executed | Stats.GithubLanguagesRaise | Stats.GetProjectStats |
| src/strds/mine.py:298 | splits the output on the two characters backslash and `n` | `refs/tags/1` newline `refs/tags/2` gives only `1` | one tag per output line | high, not executed | Mine.GitTagsFindingAsWritten | Mine.GitTagsFindingPerLine |
| src/strds/mine.py:26 | the regex ends in `/?$`, and `$` also matches before a final newline | `https://github.com/o/r/` followed by a newline is valid, and splits into `r` and a newline | only owner/repo URLs pass, and split into owner and repo | medium, not executed | Mine.TrailingNewlineUrl | Mine.GithubUrlRoundTrip |
