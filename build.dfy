/**
 * Build-command choice (`get_build_command`): only Java gets a build
 * command, chosen from the project layout by two existence checks.
 */
module BuildStrategy {
  import opened Wrappers
  import opened Paths
  import opened Languages

  const MavenBuild := "mvn clean compile -DskipTests"
  const GradleBuild := "./gradlew clean assemble"
  const JavacBuild := "javac -cp . *.java"

  /**
   * `get_build_command(src_dir, lang)`, with `os.path.exists` read off the
   * set `existing` of paths present on disk. A Maven manifest wins over a
   * Gradle wrapper, which wins over the naive `javac` fallback; every other
   * language is left to the engine's own extraction.
   */
  function BuildCommand(srcDir: string, lang: Language, existing: set<string>): (r: Option<string>)
    ensures r.Some? <==> lang == Java
    ensures r == Some(MavenBuild) <==> lang == Java && Join(srcDir, "pom.xml") in existing
    ensures r == Some(GradleBuild) <==>
      lang == Java && Join(srcDir, "pom.xml") !in existing && Join(srcDir, "gradlew") in existing
    ensures r == Some(JavacBuild) <==>
      lang == Java && Join(srcDir, "pom.xml") !in existing && Join(srcDir, "gradlew") !in existing
  {
    if lang == Java then
      if Join(srcDir, "pom.xml") in existing then Some(MavenBuild)
      else if Join(srcDir, "gradlew") in existing then Some(GradleBuild)
      else Some(JavacBuild)
    else None
  }

  /** The build command depends on nothing but the two manifest checks. */
  lemma BuildCommandDependsOnlyOnManifests(srcDir: string, lang: Language, e1: set<string>, e2: set<string>)
    requires (Join(srcDir, "pom.xml") in e1) == (Join(srcDir, "pom.xml") in e2)
    requires (Join(srcDir, "gradlew") in e1) == (Join(srcDir, "gradlew") in e2)
    ensures BuildCommand(srcDir, lang, e1) == BuildCommand(srcDir, lang, e2)
  {
  }
}
