/** List options and partitions (pkg/sqlcache/sqltypes/types.go, pkg/sqlcache/partition). */
module ListOptions {

  datatype Op = Eq | NotEq | Exists | NotExists | In | NotIn | Lt | Gt | OtherOp

  datatype Filter = Filter(field: seq<string>, matches: seq<string>, op: Op, partial: bool)

  /** A group of alternatives. */
  type OrFilter = seq<Filter>

  /** `sort` holds the field list of each sort directive. */
  datatype Options = Options(filters: seq<OrFilter>, projects: OrFilter, sort: seq<seq<string>>)

  datatype Partition = Partition(passthrough: bool, namespace: string, all: bool, names: set<string>)

  const PROJECT_LABEL := "field.cattle.io/projectId"

  predicate IsLabelFilter(f: Filter) {
    |f.field| >= 2 && f.field[0] == "metadata" && f.field[1] == "labels"
  }

  predicate IsLabelsFieldList(fields: seq<string>) {
    |fields| == 3 && fields[0] == "metadata" && fields[1] == "labels"
  }

  /** The label a filter names; reading it panics when the field list stops at "labels". */
  predicate NamesLabel(f: Filter, name: string) {
    IsLabelFilter(f) && |f.field| > 2 && f.field[2] == name
  }

  /** Operators that only hold for objects that have the label. */
  predicate Selective(op: Op) { op in {In, Eq, Gt, Lt, Exists} }
}
