/** Which fields each lookup can change (apps/api/src/workforce-import/org.ts, lines 181-452). */
module OrgResolverShapes {
  import opened Options
  import opened UnitCodes
  import opened OrgResolverSpec

  lemma {:induction false} NotedShape(s: State, note: Note)
    ensures Noted(s, note) == s.(problems := Noted(s, note).problems)
  {
    if note in s.problems {
    } else {
    }
  }

  lemma {:induction false} MatchedShape(s: State, m: Match, code: string)
    ensures Matched(s, m, code) == s.(problems := Matched(s, m, code).problems)
  {
    hide Noted;
    if m.mismatch.Some? {
      NotedShape(s, BranchCodeMismatch(m.mismatch.value.name, m.mismatch.value.code, code));
    } else {
    }
  }

  /** A branch lookup touches the branches, and the notes. */
  lemma {:induction false} BranchShape(env: Env, s: State, name: string, key: string)
    ensures var r := NewBranch(env, s, name, key);
            r.state ==
              s.(registry := s.registry.(branches := r.state.registry.branches, nextId := r.state.registry.nextId),
                          branches := if r.value.Some? then s.branches[key := r.value.value] else s.branches,
                          created := r.state.created, problems := r.state.problems)
  {
    hide MatchBranch, NewId, DryBranch, Noted, Matched;
    if key !in env.branchCodes {
      NotedShape(s, SiteHasNoCode(name));
    } else if MatchBranch(env, s.registry.branches, env.branchCodes[key], key).Some? {
      MatchedShape(s, MatchBranch(env, s.registry.branches, env.branchCodes[key], key).value, env.branchCodes[key]);
    } else if env.dryRun {
    } else {
    }
  }

  lemma {:induction false} DepartmentEntryShape(env: Env, s: State, name: string, key: string)
    ensures var t := DepartmentEntry(env, s, name, key).state;
            var r := s.registry.(departmentEntries := t.registry.departmentEntries, nextId := t.registry.nextId);
            t == s.(registry := r, departmentCatalog := t.departmentCatalog, minted := t.minted)
  {
    hide Find, NextFreeCode, NewId, DryEntry, EntryNamed;
    if key in s.departmentCatalog {
    } else if Find(s.registry.departmentEntries, EntryNamed(env, key)).Some? {
    } else if env.dryRun {
    } else {
    }
  }

  /** A department lookup caches the department, and perhaps its entry. */
  lemma {:induction false} DepartmentShape(env: Env, s: State, branchId: Id, name: string, key: string)
    ensures var r := NewDepartment(env, s, branchId, name, key);
            r.state == s.(registry := s.registry.(departmentEntries := r.state.registry.departmentEntries,
                                                  departments := r.state.registry.departments,
                                                  nextId := r.state.registry.nextId),
                          departments := s.departments[CacheKey(branchId, key) := r.value],
                          departmentCatalog := r.state.departmentCatalog, rowCatalog := r.state.rowCatalog,
                          created := r.state.created, minted := r.state.minted)
  {
    hide Find, NextFreeCode, NewId, DryDepartment, DepartmentAt, DepartmentEntry, EntryName, CacheKey;
    var t := DepartmentEntry(env, s, name, key).state;
    DepartmentEntryShape(env, s, name, key);
    if Find(t.registry.departments, DepartmentAt(env, branchId, key)).Some? {
    } else if env.dryRun {
    } else {
    }
  }

  lemma {:induction false} SectionEntryShape(env: Env, s: State, parentId: Id, name: string, key: string)
    ensures var t := SectionEntry(env, s, parentId, name, key).state;
            t == s.(registry := s.registry.(sectionEntries := t.registry.sectionEntries, nextId := t.registry.nextId),
                    sectionCatalog := t.sectionCatalog, minted := t.minted)
  {
    hide Find, NextFreeCode, NewId, DrySubEntry, SubEntryAt, CacheKey;
    if CacheKey(parentId, key) in s.sectionCatalog {
    } else if Find(s.registry.sectionEntries, SubEntryAt(env, parentId, key)).Some? {
    } else if env.dryRun {
    } else {
    }
  }

  lemma {:induction false} DeclaredEntryShape(env: Env, s: State, departmentId: Id, name: string, key: string)
    ensures var t := DeclaredEntry(env, s, departmentId, name, key).state;
            t == s.(registry := s.registry.(sectionEntries := t.registry.sectionEntries, nextId := t.registry.nextId),
                    sectionCatalog := t.sectionCatalog, minted := t.minted)
  {
    hide SectionEntry;
    if departmentId in s.rowCatalog && s.rowCatalog[departmentId].Some? {
      SectionEntryShape(env, s, s.rowCatalog[departmentId].value, name, key);
    }
  }

  /** A section lookup caches the section, and perhaps its entry. */
  lemma {:induction false} SectionShape(env: Env, s: State, departmentId: Id, name: string, key: string)
    ensures var r := NewSection(env, s, departmentId, name, key);
            r.state == s.(registry := s.registry.(sectionEntries := r.state.registry.sectionEntries,
                                                  sections := r.state.registry.sections,
                                                  nextId := r.state.registry.nextId),
                          sections := s.sections[CacheKey(departmentId, key) := r.value],
                          sectionCatalog := r.state.sectionCatalog, created := r.state.created,
                            minted := r.state.minted)
  {
    hide Find, NextFreeCode, NewId, DrySection, SectionAt, DeclaredEntry, SubEntryName, CacheKey;
    if Find(s.registry.sections, SectionAt(env, departmentId, key)).Some? {
    } else {
      DeclaredEntryShape(env, s, departmentId, name, key);
      if env.dryRun {
      } else {
      }
    }
  }

  /** A title lookup caches the title. */
  lemma {:induction false} TitleShape(env: Env, s: State, name: string, key: string)
    ensures var r := NewTitle(env, s, name, key);
            r.state == s.(registry := s.registry.(titles := r.state.registry.titles, nextId := r.state.registry.nextId),
                          jobTitles := s.jobTitles[key := r.value], created := r.state.created,
                            minted := r.state.minted)
  {
    hide Find, NextFreeCode, NewId, DryTitle, TitleNamed;
    if Find(s.registry.titles, TitleNamed(env, key)).Some? {
    } else if env.dryRun {
    } else {
    }
  }
}

/**
 * What the resolver remembers: equal folded placements get equal ids (apps/api/src/workforce-import/org.ts, lines
 * 160-452).
 */
module OrgResolverMemory {
  import opened Options
  import opened OrgResolverSpec
  import opened OrgResolverShapes

  ghost predicate Grown(m: map<string, Id>, n: map<string, Id>) {
    forall k :: k in m ==> k in n && n[k] == m[k]
  }

  /** A resolver only ever adds to its caches. */
  ghost predicate Remembers(s: State, t: State) {
    && Grown(s.branches, t.branches) && Grown(s.departments, t.departments)
    && Grown(s.sections, t.sections) && Grown(s.jobTitles, t.jobTitles)
  }

  lemma {:induction false} RemembersTrans(s: State, t: State, u: State)
    requires Remembers(s, t) && Remembers(t, u)
    ensures Remembers(s, u)
  {
  }

  lemma {:induction false} BranchRemembers(env: Env, s: State, name: Option<string>)
    ensures var r := Branch(env, s, name); Remembers(s, r.state)
    ensures var r := Branch(env, s, name);
            r.value.Some? ==> Key(env, name).Some? && Key(env, name).value in r.state.branches
                              && r.state.branches[Key(env, name).value] == r.value.value
  {
    hide NewBranch;
    if Key(env, name).Some? && Key(env, name).value !in s.branches {
      BranchShape(env, s, name.value, Key(env, name).value);
    }
  }

  lemma {:induction false} DepartmentRemembers(env: Env, s: State, branchId: Id, name: Option<string>)
    ensures var r := Department(env, s, branchId, name); Remembers(s, r.state)
    ensures var r := Department(env, s, branchId, name);
            r.value.Some? ==> Key(env, name).Some? && CacheKey(branchId, Key(env, name).value) in r.state.departments
                              && r.state.departments[CacheKey(branchId, Key(env, name).value)] == r.value.value
  {
    hide CacheKey, NewDepartment;
    if Key(env, name).Some? && CacheKey(branchId, Key(env, name).value) !in s.departments {
      DepartmentShape(env, s, branchId, name.value, Key(env, name).value);
    }
  }

  lemma {:induction false} SectionRemembers(env: Env, s: State, departmentId: Id, name: Option<string>)
    ensures var r := Section(env, s, departmentId, name); Remembers(s, r.state)
    ensures var r := Section(env, s, departmentId, name);
            match Key(env, name)
            case None => r.value == None
            case Some(key) =>
              CacheKey(departmentId, key) in r.state.sections &&
                r.value == Some(r.state.sections[CacheKey(departmentId, key)])
  {
    hide CacheKey, NewSection;
    if Key(env, name).Some? && CacheKey(departmentId, Key(env, name).value) !in s.sections {
      SectionShape(env, s, departmentId, name.value, Key(env, name).value);
    }
  }

  lemma {:induction false} TitleRemembers(env: Env, s: State, name: Option<string>)
    ensures var r := JobTitle(env, s, name); Remembers(s, r.state)
    ensures var r := JobTitle(env, s, name);
            r.value.Some? ==> Key(env, name).Some? && Key(env, name).value in r.state.jobTitles
                              && r.state.jobTitles[Key(env, name).value] == r.value.value
  {
    hide NewTitle;
    if Key(env, name).Some? && Key(env, name).value !in s.jobTitles {
      TitleShape(env, s, name.value, Key(env, name).value);
    }
  }

  lemma {:induction false} ResolveRemembers(env: Env, s: State, row: PlacedRow)
    ensures Remembers(s, Resolve(env, s, row).state)
  {
    hide Branch, Department, Section, JobTitle, Remembers;
    var branch := Branch(env, s, row.branchName);
    BranchRemembers(env, s, row.branchName);
    if branch.value.Some? {
      var department := Department(env, branch.state, branch.value.value, row.departmentName);
      DepartmentRemembers(env, branch.state, branch.value.value, row.departmentName);
      RemembersTrans(s, branch.state, department.state);
      if department.value.Some? {
        var section := Section(env, department.state, department.value.value, row.sectionName);
        SectionRemembers(env, department.state, department.value.value, row.sectionName);
        RemembersTrans(s, department.state, section.state);
        TitleRemembers(env, section.state, row.jobTitleName);
        RemembersTrans(s, section.state, JobTitle(env, section.state, row.jobTitleName).state);
      }
    }
  }

  /** The caches hold the answer to a row. */
  ghost predicate Cached(env: Env, s: State, row: PlacedRow, r: Resolution) {
    && KnownBranch(env, s, row, r) && KnownDepartment(env, s, row, r) && KnownSection(env, s, row, r)
    && KnownTitle(env, s, row, r)
  }

  predicate KnownBranch(env: Env, s: State, row: PlacedRow, r: Resolution) {
    var k := Key(env, row.branchName);
    k.Some? && k.value in s.branches && s.branches[k.value] == r.branchId
  }

  predicate KnownDepartment(env: Env, s: State, row: PlacedRow, r: Resolution) {
    var k := Key(env, row.departmentName);
    k.Some? && CacheKey(r.branchId, k.value) in s.departments &&
      s.departments[CacheKey(r.branchId, k.value)] == r.departmentId
  }

  predicate KnownSection(env: Env, s: State, row: PlacedRow, r: Resolution) {
    match Key(env, row.sectionName)
    case None => r.sectionId == None
    case Some(k) =>
      CacheKey(r.departmentId, k) in s.sections && r.sectionId == Some(s.sections[CacheKey(r.departmentId, k)])
  }

  predicate KnownTitle(env: Env, s: State, row: PlacedRow, r: Resolution) {
    var k := Key(env, row.jobTitleName);
    k.Some? && k.value in s.jobTitles && s.jobTitles[k.value] == r.jobTitleId
  }

  lemma {:induction false} CachedStays(env: Env, s: State, t: State, row: PlacedRow, r: Resolution)
    requires Remembers(s, t)
    ensures KnownBranch(env, s, row, r) ==> KnownBranch(env, t, row, r)
    ensures KnownDepartment(env, s, row, r) ==> KnownDepartment(env, t, row, r)
    ensures KnownSection(env, s, row, r) ==> KnownSection(env, t, row, r)
    ensures KnownTitle(env, s, row, r) ==> KnownTitle(env, t, row, r)
  {
    hide CacheKey;
  }

  lemma {:induction false} ResolveCaches(env: Env, s: State, row: PlacedRow)
    requires Resolve(env, s, row).value.Some?
    ensures Cached(env, Resolve(env, s, row).state, row, Resolve(env, s, row).value.value)
  {
    hide Branch, Department, Section, JobTitle, Remembers, CacheKey;
    var r := Resolve(env, s, row).value.value;
    var branch := Branch(env, s, row.branchName);
    BranchRemembers(env, s, row.branchName);
    var department := Department(env, branch.state, branch.value.value, row.departmentName);
    DepartmentRemembers(env, branch.state, branch.value.value, row.departmentName);
    CachedStays(env, branch.state, department.state, row, r);
    var section := Section(env, department.state, department.value.value, row.sectionName);
    SectionRemembers(env, department.state, department.value.value, row.sectionName);
    CachedStays(env, department.state, section.state, row, r);
    TitleRemembers(env, section.state, row.jobTitleName);
    CachedStays(env, section.state, JobTitle(env, section.state, row.jobTitleName).state, row, r);
  }

  /** A cached row is answered from the caches alone. */
  lemma {:induction false} CachedAnswers(env: Env, s: State, row: PlacedRow, r: Resolution)
    requires Cached(env, s, row, r)
    ensures Resolve(env, s, row) == Step(s, Some(r))
  {
    hide CacheKey, NewDepartment, NewSection, NewTitle, NewBranch;
  }

  lemma {:induction false} AfterRemembers(env: Env, s: State, rows: seq<PlacedRow>)
    ensures Remembers(s, After(env, s, rows))
  {
    hide Resolve;
    if rows != [] {
      var n := |rows| - 1;
      AfterRemembers(env, s, rows[..n]);
      ResolveRemembers(env, After(env, s, rows[..n]), rows[n]);
      RemembersTrans(s, After(env, s, rows[..n]), After(env, s, rows));
    }
  }

  predicate SamePlace(env: Env, a: PlacedRow, b: PlacedRow) {
    && Key(env, a.branchName) == Key(env, b.branchName) && Key(env, a.departmentName) == Key(env, b.departmentName)
    && Key(env, a.sectionName) == Key(env, b.sectionName) && Key(env, a.jobTitleName) == Key(env, b.jobTitleName)
  }

  /** Whatever was resolved in between, a row that folds alike gets the same ids, and nothing changes. */
  lemma {:induction false} SamePlaceSameIds(
    env: Env, s: State, row: PlacedRow, between: seq<PlacedRow>, again: PlacedRow)
    requires Resolve(env, s, row).value.Some? && SamePlace(env, row, again)
    ensures var later := After(env, Resolve(env, s, row).state, between);
            Resolve(env, later, again) == Step(later, Resolve(env, s, row).value)
  {
    hide Resolve, Remembers, After, CacheKey;
    var r := Resolve(env, s, row);
    var later := After(env, r.state, between);
    ResolveCaches(env, s, row);
    AfterRemembers(env, r.state, between);
    CachedStays(env, r.state, later, row, r.value.value);
    CachedAnswers(env, later, again, r.value.value);
  }
}
