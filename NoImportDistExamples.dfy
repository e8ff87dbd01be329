/** Paths from the rule's test suite. */
module NoImportDistExamples {
  import opened Layout
  import opened NoImportDist

  lemma ParentDist()
    ensures OnImport("../dist/a") == Some(Report("../dist/a"))
  {
    assert DistAt("../dist/a", 2);
  }

  lemma CurrentDist()
    ensures OnImport("./dist") == Some(Report("./dist"))
  {
    assert DistAt("./dist", 1);
  }

  lemma BareDist()
    ensures OnImport("dist") == Some(Report("dist"))
  {
  }

  /** A package's own `dist` directory is not a relative path, so it is allowed. */
  lemma PackageDistAllowed()
    ensures OnImport("floating-vue/dist/foo.css") == None
  {
    PackagePathsAllowed("floating-vue/dist/foo.css");
  }

  /** `/dist` must end a segment: `./distro` is allowed. */
  lemma DistroAllowed()
    ensures OnImport("./distro") == None
  {
    assert !FindDist("./distro", 0) by {
      assert !DistAt("./distro", 0) && !DistAt("./distro", 1) && !DistAt("./distro", 2) && !DistAt("./distro", 3);
    }
  }
}
