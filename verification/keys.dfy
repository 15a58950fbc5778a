/** The (Dept, Number) identity of a course and the order every writer sorts
    by: `strings.Compare` on the department, then on the number. */
module Keys {
  import opened Text
  import opened Sorting

  datatype CourseKey = CourseKey(dept: string, number: string)

  /** `a` sorts no later than `b`: smaller department, or the same department
      and a number that is not larger. */
  predicate KeyLe(a: CourseKey, b: CourseKey) {
    LexLt(a.dept, b.dept) || (a.dept == b.dept && LexLe(a.number, b.number))
  }

  lemma KeyLeRefl(a: CourseKey)
    ensures KeyLe(a, a)
  {
    LexLeRefl(a.number);
  }

  lemma KeyLeTotal(a: CourseKey, b: CourseKey)
    ensures KeyLe(a, b) || KeyLe(b, a)
  {
    LexLtIsNotLe(a.dept, b.dept);
    LexLtIsNotLe(b.dept, a.dept);
    LexLeTotal(a.number, b.number);
  }

  lemma KeyLeTrans(a: CourseKey, b: CourseKey, c: CourseKey)
    ensures KeyLe(a, b) && KeyLe(b, c) ==> KeyLe(a, c)
  {
    LexLtIsNotLe(a.dept, b.dept);
    LexLtIsNotLe(b.dept, c.dept);
    LexLtIsNotLe(a.dept, c.dept);
    LexLeTrans(b.dept, c.dept, a.dept);
    LexLeTrans(c.dept, a.dept, b.dept);
    LexLeTrans(a.number, b.number, c.number);
    LexLeRefl(a.dept);
    LexLeRefl(b.dept);
  }

  lemma KeyLeAntisym(a: CourseKey, b: CourseKey)
    ensures KeyLe(a, b) && KeyLe(b, a) ==> a == b
  {
    LexLtIsNotLe(a.dept, b.dept);
    LexLeAntisym(a.number, b.number);
  }

  lemma KeyLeTotalPreorder()
    ensures TotalPreorder(KeyLe)
  {
    forall a, b { KeyLeTotal(a, b); }
    forall a, b, c { KeyLeTrans(a, b, c); }
  }

  /** Go's `<=` on strings is a total preorder, for sorting by one string field. */
  lemma LexLeTotalPreorder()
    ensures TotalPreorder(LexLe)
  {
    forall a, b { LexLeTotal(a, b); }
    forall a, b, c { LexLeTrans(a, b, c); }
  }
}
