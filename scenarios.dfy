/**
 * Worked documents: what the search yields for the chart, image and OCI
 * references a Helm values file typically holds.
 */
module Scenarios {
  import opened Wrappers
  import opened Strings
  import opened Yaml
  import P = Patterns
  import opened StructuralSearch

  const Image := "docker.io/bitnami/nginx:1.2"
  const ChartRepo := "https://charts.bitnami.com/bitnami"
  const OciChart := "oci://registry-1.docker.io/bitnamicharts/redis"

  /** The `nginx` that follows `bitnami/` in the image reference runs up to the colon. */
  lemma ImageNameTail()
    ensures P.NameTail(Image, 18) == Some(23)
  {
    var s := Image;
    assert P.RunEnd(s, 23) == 23;
    assert P.RunEnd(s, 18) == 23;
    assert P.Boundary(s, 23);
  }

  lemma ImageNoEarlyBitnami(k: nat)
    requires k < 10
    ensures P.MatchAt(P.Bitnami, Image, k).None?
  {
    var s := Image;
    assert s[k] != 'b';
    assert !StartsAt(s, k, "bitnami/") by {
      if k + 8 <= |s| { assert s[k..k + 8][0] == s[k]; }
    }
  }

  /** `bitnami` finds the registry-less part of the image reference, at index 10. */
  lemma ImageBitnami()
    ensures P.Search(P.Bitnami, Image) == Some(P.Hit(10, "bitnami/nginx", Some("nginx")))
  {
    var s := Image;
    forall k: nat | k < 10 ensures P.MatchAt(P.Bitnami, s, k).None? {
      ImageNoEarlyBitnami(k);
    }
    P.FirstMatchSkip(P.Bitnami, s, 0, 10);
    ImageBitnamiAt();
  }

  lemma ImageBitnamiAt()
    ensures P.MatchAt(P.Bitnami, Image, 10) == Some(P.Hit(10, "bitnami/nginx", Some("nginx")))
  {
    var s := Image;
    assert P.Boundary(s, 10) && s[10..18] == "bitnami/";
    ImageNameTail();
    assert s[10..23] == "bitnami/nginx" && s[18..23] == "nginx";
  }

  /** `docker` finds the whole reference up to the tag, at index 0. */
  lemma ImageDocker()
    ensures P.Search(P.Docker, Image) == Some(P.Hit(0, "docker.io/bitnami/nginx", Some("nginx")))
  {
    var s := Image;
    assert P.Boundary(s, 0) && s[0..18] == "docker.io/bitnami/";
    ImageNameTail();
    assert s[0..23] == "docker.io/bitnami/nginx" && s[18..23] == "nginx";
  }

  /** Neither literal pattern occurs in the image reference. */
  lemma ImageNoLiteralHits()
    ensures P.Search(P.Charts, Image).None? && P.Search(P.Oci, Image).None?
  {
    var charts, oci := P.Prefix(P.Charts), P.Prefix(P.Oci);
    assert charts[0] == 'h' && oci[13] == 'y';
    assert 'h' !in Image && 'y' !in Image;
    MissingCharNotContained(Image, charts, 'h');
    MissingCharNotContained(Image, oci, 'y');
    P.AbsentPrefixNoHit(P.Charts, Image);
    P.AbsentPrefixNoHit(P.Oci, Image);
  }

  /** The image reference yields two triples, `bitnami` before `docker`, and neither literal pattern. */
  lemma ImageMatches()
    ensures StringMatches(Image) == [
              Match("bitnami", "bitnami/nginx", Some("nginx")),
              Match("docker", "docker.io/bitnami/nginx", Some("nginx"))]
  {
    ImageBitnami();
    ImageDocker();
    ImageNoLiteralHits();
    StringMatchesUnrolled(Image);
  }

  /** The document `{image: "docker.io/bitnami/nginx:1.2"}`: the key adds nothing, the value two triples. */
  lemma ImageDocument()
    ensures Search(Mapping([KeyValue(Str("image"), Str(Image))])) == [
              Match("bitnami", "bitnami/nginx", Some("nginx")),
              Match("docker", "docker.io/bitnami/nginx", Some("nginx"))]
  {
    NoSlashNoMatches("image");
    ImageMatches();
    var es := [KeyValue(Str("image"), Str(Image))];
    assert es[1..] == [];
    assert SearchEntries(es) == Search(Str("image")) + Search(Str(Image)) + SearchEntries([]);
  }

  /** The chart repository URL is a `charts` hit with no group, reported with an empty extracted value. */
  lemma ChartRepoHit()
    ensures P.Search(P.Charts, ChartRepo) == Some(P.Hit(0, ChartRepo, None))
    ensures Triple(P.Charts, P.Search(P.Charts, ChartRepo).value) == Match("charts", ChartRepo, Some(""))
  {
    assert StartsAt(ChartRepo, 0, P.Prefix(P.Charts));
  }

  /** The OCI chart reference is an `oci` hit whose group is the chart name. */
  lemma OciChartHit()
    ensures P.Search(P.Oci, OciChart) == Some(P.Hit(0, OciChart, Some("redis")))
    ensures Triple(P.Oci, P.Search(P.Oci, OciChart).value) == Match("oci", OciChart, Some("redis"))
  {
    var s := OciChart;
    assert StartsAt(s, 0, P.Prefix(P.Oci));
    assert s[40] == '/' && P.IsNameChar(s[41]);
    assert P.RunEnd(s, 46) == 46;
    assert P.RunEnd(s, 41) == 46;
    assert s[0..46] == s && s[41..46] == "redis";
  }

  /** `bitnami/` does not occur in the chart repository URL: its slashes follow `https:/` and `.com`. */
  lemma ChartRepoNoBitnamiPath()
    ensures !Contains(ChartRepo, P.Prefix(P.Bitnami))
  {
    var s, lit := ChartRepo, P.Prefix(P.Bitnami);
    forall i: nat | i <= |s| ensures !StartsAt(s, i, lit) {
      if i + |lit| <= |s| {
        assert s[i..i + |lit|][7] == s[i + 7] && s[i..i + |lit|][0] == s[i];
        if s[i + 7] == '/' {
          assert i == 0 || i == 19;
        }
      }
    }
  }

  /** `bitnami` does not hit the chart repository URL. */
  lemma ChartRepoNoBitnami()
    ensures P.Search(P.Bitnami, ChartRepo).None?
  {
    ChartRepoNoBitnamiPath();
    P.AbsentPrefixNoHit(P.Bitnami, ChartRepo);
  }

  /** The chart repository URL has no `d` and no `y`, so it contains neither `docker`'s nor `oci`'s literal. */
  lemma ChartRepoNoDockerOciPrefix()
    ensures !Contains(ChartRepo, P.Prefix(P.Docker)) && !Contains(ChartRepo, P.Prefix(P.Oci))
  {
    var docker, oci := P.Prefix(P.Docker), P.Prefix(P.Oci);
    assert docker[0] == 'd' && oci[13] == 'y';
    assert 'd' !in ChartRepo && 'y' !in ChartRepo;
    MissingCharNotContained(ChartRepo, docker, 'd');
    MissingCharNotContained(ChartRepo, oci, 'y');
  }

  lemma ChartRepoNoDockerOci()
    ensures P.Search(P.Docker, ChartRepo).None? && P.Search(P.Oci, ChartRepo).None?
  {
    ChartRepoNoDockerOciPrefix();
    P.AbsentPrefixNoHit(P.Docker, ChartRepo);
    P.AbsentPrefixNoHit(P.Oci, ChartRepo);
  }

  /** Of the four patterns only `charts` hits the chart repository URL. */
  lemma ChartRepoMatches()
    ensures StringMatches(ChartRepo) == [Match("charts", ChartRepo, Some(""))]
  {
    ChartRepoNoBitnami();
    ChartRepoNoDockerOci();
    ChartRepoHit();
    StringMatchesUnrolled(ChartRepo);
  }

  /** The inner mapping `{repository: "https://charts.bitnami.com/bitnami"}`: the key adds nothing. */
  lemma ChartRepositoryEntry()
    ensures Search(Mapping([KeyValue(Str("repository"), Str(ChartRepo))])) == [Match("charts", ChartRepo, Some(""))]
  {
    NoSlashNoMatches("repository");
    ChartRepoMatches();
    MappingIsConcatenation([], [], Str("repository"), Str(ChartRepo));
  }

  /** The document `{chart: {repository: "https://charts.bitnami.com/bitnami"}}` yields one `charts` triple. */
  lemma ChartDocument()
    ensures Search(Mapping([KeyValue(Str("chart"), Mapping([KeyValue(Str("repository"), Str(ChartRepo))]))]))
              == [Match("charts", ChartRepo, Some(""))]
  {
    var inner := Mapping([KeyValue(Str("repository"), Str(ChartRepo))]);
    ChartRepositoryEntry();
    NoSlashNoMatches("chart");
    MappingIsConcatenation([], [], Str("chart"), inner);
  }

  /** `docker.io/bitnami/` does not occur in the OCI reference: its `docker.io/` is followed by `bitnamicharts`. */
  lemma OciChartNoDockerPath()
    ensures !Contains(OciChart, P.Prefix(P.Docker))
  {
    var s, lit := OciChart, P.Prefix(P.Docker);
    forall i: nat | i <= |s| ensures !StartsAt(s, i, lit) {
      if i + |lit| <= |s| {
        assert s[i..i + |lit|][9] == s[i + 9] && s[i..i + |lit|][17] == s[i + 17];
        if s[i + 9] == '/' {
          assert i == 17;
        }
      }
    }
  }

  /** `bitnami/` does not occur in the OCI reference: its only `bitnami` is followed by `charts`. */
  lemma OciChartNoBitnamiPath()
    ensures !Contains(OciChart, P.Prefix(P.Bitnami))
  {
    var s, lit := OciChart, P.Prefix(P.Bitnami);
    forall i: nat | i <= |s| ensures !StartsAt(s, i, lit) {
      if i + |lit| <= |s| {
        assert s[i..i + |lit|][7] == s[i + 7] && s[i..i + |lit|][0] == s[i];
        if s[i + 7] == '/' {
          assert i == 19 || i == 33;
        }
      }
    }
  }

  /** Neither `bitnami` nor `docker` hits the OCI reference. */
  lemma OciChartNoBitnamiDocker()
    ensures P.Search(P.Bitnami, OciChart).None? && P.Search(P.Docker, OciChart).None?
  {
    OciChartNoBitnamiPath();
    OciChartNoDockerPath();
    P.AbsentPrefixNoHit(P.Bitnami, OciChart);
    P.AbsentPrefixNoHit(P.Docker, OciChart);
  }

  /** The charts URL does not occur in the OCI reference: no slash of the reference sits where its `//` would. */
  lemma OciChartNoChartsUrl()
    ensures !Contains(OciChart, P.Prefix(P.Charts))
  {
    var s, lit := OciChart, P.Prefix(P.Charts);
    forall i: nat | i <= |s| ensures !StartsAt(s, i, lit) {
      if i + |lit| <= |s| {
        assert s[i..i + |lit|][6] == s[i + 6];
        assert s[i + 6] != '/';
      }
    }
  }

  lemma OciChartNoCharts()
    ensures P.Search(P.Charts, OciChart).None?
  {
    OciChartNoChartsUrl();
    P.AbsentPrefixNoHit(P.Charts, OciChart);
  }

  /** Of the four patterns only `oci` hits the OCI reference. */
  lemma OciChartMatches()
    ensures StringMatches(OciChart) == [Match("oci", OciChart, Some("redis"))]
  {
    OciChartNoBitnamiDocker();
    OciChartNoCharts();
    OciChartHit();
    StringMatchesUnrolled(OciChart);
  }

  /** The document `{dependency: "oci://registry-1.docker.io/bitnamicharts/redis"}` yields one `oci` triple. */
  lemma OciDocument()
    ensures Search(Mapping([KeyValue(Str("dependency"), Str(OciChart))])) == [Match("oci", OciChart, Some("redis"))]
  {
    NoSlashNoMatches("dependency");
    OciChartMatches();
    MappingIsConcatenation([], [], Str("dependency"), Str(OciChart));
  }
}
