/** Properties that relate several operations of the `Check` module: the exit
    policy of `check`, the agreement of `check` and `check-chunk`, the meaning
    of the date comparison, and worked examples. */
module CheckProperties {
  import Lex
  import IsoDate
  import opened Check

  /** The exit policy of `check`. A failed lookup is returned unchanged and
      nothing is printed. An EOL version is reported and then fails with "EOL",
      whatever the flags. A version that is not EOL succeeds exactly when
      `failOnUnsupported` is unset, and fails without a report when it is set. */
  lemma ExitPolicy(response: Response, today: string, name: string, version: string, flags: Flags)
    requires name == [] || IsAscii(name[0])
    ensures var run, found := CheckCommand(response, today, name, version, flags), Lookup(response, version);
            && (found.Err? ==> run == Run(None, Some(found.error)))
            && (found.Ok? && EolReached(found.value.eol, today) ==>
                  run.error == Some(EolError) && run.report.Some? && run.report.value.EolReport?)
            && (run.error.None? <==> found.Ok? && NotEolYet(found.value.eol, today) && !flags.failOnUnsupported)
            && (run.error == Some(NotSupported(Capitalize(name), version)) <==>
                  found.Ok? && NotEolYet(found.value.eol, today) && flags.failOnUnsupported)
            && (run.error == Some(NotSupported(Capitalize(name), version)) ==> run.report.None?)
  {
    var found := Lookup(response, version);
    if found.Ok? {
      ClassificationsAgree(found.value.eol, today);
    }
  }

  /** `failOnMissing` is never consulted: a missing version fails with
      "Version not found" whether the flag is set or not. */
  lemma FailOnMissingIgnored(response: Response, today: string, name: string, version: string,
                             missing1: bool, missing2: bool, unsupported: bool)
    requires name == [] || IsAscii(name[0])
    ensures CheckCommand(response, today, name, version, Flags(missing1, unsupported))
            == CheckCommand(response, today, name, version, Flags(missing2, unsupported))
    ensures response.Responded? && response.status == StatusOK && response.body.Decoded?
            && (forall i :: 0 <= i < |response.body.versions| ==> response.body.versions[i].cycle != version)
            ==> CheckCommand(response, today, name, version, Flags(missing1, unsupported)) == Run(None, Some(VersionNotFound))
  {
  }

  /** For the same registry answer and date, the chunk loop's line for a
      variant agrees with what `check` decides for that version: a failed
      lookup is the same error, an EOL line is exactly a failure with "EOL",
      and a not-EOL line is exactly a success or a `failOnUnsupported` failure. */
  lemma ChunkAgreesWithCheck(env: Env, name: string, version: string, flags: Flags)
    requires name == [] || IsAscii(name[0])
    ensures var line, run := VariantLine(env, version), CheckCommand(env.response, env.today, name, version, flags);
            && (line.CheckFailed? ==> run == Run(None, Some(line.error)))
            && (line.EolLine? <==> run.error == Some(EolError))
            && (line.NotEolLine? <==> run.error.None? || run.error == Some(NotSupported(Capitalize(name), version)))
  {
    var found := Lookup(env.response, version);
    if found.Ok? {
      ClassificationsAgree(found.value.eol, env.today);
    }
  }

  /** For well-formed `YYYY-MM-DD` dates the string comparison the commands
      use is chronological: a version is not EOL exactly when its EOL date is
      a later day than today, so an EOL date one day after today is not EOL
      and an EOL date equal to today is. */
  lemma EolIsChronological(eol: string, today: string)
    requires IsoDate.WellFormed(eol) && IsoDate.WellFormed(today)
    ensures NotEolYet(eol, today) <==> IsoDate.Before(today, eol)
    ensures EolReached(eol, today) <==> !IsoDate.Before(today, eol)
  {
    IsoDate.LexOrderIsDateOrder(today, eol);
    ClassificationsAgree(eol, today);
  }

  /** Capitalizing twice is capitalizing once. */
  lemma CapitalizeIdempotent(word: string)
    requires word == [] || IsAscii(word[0])
    ensures Capitalize(Capitalize(word)) == Capitalize(word)
  {
    if word != [] {
      assert Capitalize(word)[0] == ToUpperAscii(word[0]);
    }
  }

  // ---------------------------------------------------------------------------
  // Worked examples

  /** Registry answer `[{cycle:"14", eol:"2024-04-30", support:false}]`, today
      2025-01-01: node 14 is EOL with support "No Support". */
  lemma ExampleEolNoSupport()
    ensures CheckCommand(Responded(200, Decoded([SoftwareVersion("14", SBool(false), "2024-04-30")])),
                  "2025-01-01", "node", "14", Flags(false, false))
            == Run(Some(EolReport("Node", "14", "2024-04-30", "No Support")), Some(EolError))
  {
    var record := SoftwareVersion("14", SBool(false), "2024-04-30");
    assert FirstMatch([record], "14") == Some(0);
    assert Lookup(Responded(200, Decoded([record])), "14") == Ok(record);
    assert Capitalize("node") == "Node";
    assert Lex.SmallerAt("2024-04-30", "2025-01-01", 3);
    Lex.LessCharacterization("2024-04-30", "2025-01-01");
    Lex.Trichotomy("2024-04-30", "2025-01-01");
  }

  /** Registry answer `[{cycle:"20", eol:"2026-04-30", support:"2025-10-01"}]`,
      today 2025-01-01: node 20 is not EOL and support ends 2025-10-01. */
  lemma ExampleNotEol()
    ensures CheckCommand(Responded(200, Decoded([SoftwareVersion("20", SString("2025-10-01"), "2026-04-30")])),
                  "2025-01-01", "node", "20", Flags(false, false))
            == Run(Some(NotEolReport("Node", "20", "2026-04-30", "2025-10-01")), None)
  {
    var record := SoftwareVersion("20", SString("2025-10-01"), "2026-04-30");
    assert FirstMatch([record], "20") == Some(0);
    assert Lookup(Responded(200, Decoded([record])), "20") == Ok(record);
    assert Capitalize("node") == "Node";
    assert Lex.SmallerAt("2025-01-01", "2026-04-30", 3);
    Lex.LessCharacterization("2025-01-01", "2026-04-30");
  }

  /** A cycle the registry does not list fails with "Version not found". */
  lemma ExampleVersionNotFound()
    ensures CheckCommand(Responded(200, Decoded([SoftwareVersion("20", SString("2025-10-01"), "2026-04-30")])),
                  "2025-01-01", "node", "99", Flags(true, false))
            == Run(None, Some(VersionNotFound))
  {
  }

  /** With two records for the same cycle, the first one decides. */
  lemma ExampleFirstMatchWins()
    ensures Lookup(Responded(200, Decoded([SoftwareVersion("14", SBool(false), "2024-04-30"),
                                           SoftwareVersion("14", SOther, "2030-01-01")])), "14")
            == Ok(SoftwareVersion("14", SBool(false), "2024-04-30"))
  {
  }

  /** A registry that answers 503 makes the variant's line an error line.
      That the loop goes on past it is stated by `CheckChunk`'s ensures. */
  lemma ExampleStatusErrorLine()
    ensures VariantLine(Env(Responded(503, Malformed("")), "2025-01-01"), "14")
            == CheckFailed("14", StatusError(503))
  {
  }
}
